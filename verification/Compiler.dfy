/** The native source compiler: one pass over the tree that appends instructions, backpatches forward
    jumps, keeps a fixup list per loop and one for calls, and reuses local slots when a scope ends.

    Every method is proved to append the directly emitted code of its tree (Layout.dfy), up to the
    placeholders whose sites it records (Emission.dfy). */
module Compiler {
  import opened Values
  import opened Bytecode
  import opened Source
  import opened Layout
  import opened Emission
  import opened Linking

  class Compiler {
    /** The collected functions; a second definition of a name is ignored when they are collected. */
    const fns: Functions

    var code: seq<Instr>
    var consts: seq<Value>
    var stringBytes: nat
    /** Entry points of the functions compiled so far. */
    var entries: map<string, nat>
    var fixups: seq<Fixup>
    var loops: seq<LoopFrame>
    /** The locals table of the function being compiled: a name's slot is its position. */
    var names: seq<string>

    ghost function Now(): Snap
      reads this
    {
      Snap(code, consts, stringBytes, entries, fixups, loops)
    }

    constructor (fns: Functions)
      ensures this.fns == fns && code == [] && consts == [] && stringBytes == 0
      ensures entries == map[] && fixups == [] && loops == [] && names == []
    {
      this.fns := fns;
      code, consts, stringBytes := [], [], 0;
      entries, fixups, loops, names := map[], [], [], [];
    }

    method Emit(op: Opcode, arg: int) returns (ok: bool)
      modifies this
      ensures ok <==> |old(code)| < MAX_INSTRUCTIONS
      ensures Now() == if ok then old(Now()).(code := old(code) + [Instr(op, arg)]) else old(Now())
      ensures names == old(names)
    {
      if |code| >= MAX_INSTRUCTIONS {
        return false;
      }
      code := code + [Instr(op, arg)];
      ok := true;
    }

    /** Emit an instruction that needs no patching. */
    method EmitPlain(op: Opcode, arg: int, ghost t: Targets) returns (ok: bool)
      modifies this
      ensures ok <==> |old(code)| < MAX_INSTRUCTIONS
      ensures ok ==> Compiled(old(Now()), Now(), [I(op, arg)], 0, t)
      ensures names == old(names) && loops == old(loops)
    {
      ghost var a := Now();
      ok := Emit(op, arg);
      EmittedPlain(a, Instr(op, arg), t);
    }

    method AddString(s: string) returns (ok: bool, index: nat)
      modifies this
      ensures names == old(names) && code == old(code) && entries == old(entries) && fixups == old(fixups)
      ensures loops == old(loops) && IsPrefix(old(consts), consts) && |consts| <= |old(consts)| + 1
      ensures ok ==> index < |consts| && consts[index] == Str(s) && stringBytes <= old(stringBytes) + |s| + 1
      ensures ok ==> forall j :: 0 <= j < index ==> consts[j] != Str(s)
      ensures |old(consts)| < MAX_CONSTANTS && old(stringBytes) + |s| + 1 <= MAX_STRING_BYTES ==> ok
      ensures PoolOk(old(consts), old(stringBytes)) && IsText(s) ==> PoolOk(consts, stringBytes)
    {
      index := 0;
      while index < |consts|
        invariant 0 <= index <= |consts|
        invariant forall j :: 0 <= j < index ==> consts[j] != Str(s)
      {
        if consts[index] == Str(s) {
          return true, index;
        }
        index := index + 1;
      }
      if |consts| >= MAX_CONSTANTS || stringBytes + |s| + 1 > MAX_STRING_BYTES {
        return false, 0;
      }
      if PoolOk(consts, stringBytes) && IsText(s) {
        PoolMore(consts, stringBytes, Str(s), |s| + 1);
      }
      stringBytes := stringBytes + |s| + 1;
      consts := consts + [Str(s)];
      ok := true;
    }

    method EmitConst(v: Value, index: nat, ghost before: Snap, ghost cost: nat, ghost t: Targets) returns (ok: bool)
      requires index < |consts| && consts[index] == v
      requires before == Now().(consts := before.consts, stringBytes := before.stringBytes)
      requires IsPrefix(before.consts, consts) && CONST_COST * |consts| <= CONST_COST * |before.consts| + cost
      requires BYTE_COST * stringBytes <= BYTE_COST * before.stringBytes + cost
      requires PoolOk(before.consts, before.stringBytes) ==> PoolOk(consts, stringBytes)
      modifies this
      ensures ok <==> |old(code)| < MAX_INSTRUCTIONS
      ensures ok ==> Compiled(before, Now(), [ConstOf(v)], cost, t)
      ensures names == old(names) && loops == old(loops)
    {
      ok := Emit(CONST, index);
    }

    /** Slot of a visible name. */
    method Lookup(x: string) returns (found: bool, slot: nat)
      ensures found <==> x in names
      ensures slot == Slot(names, x)
    {
      slot := 0;
      ghost var all := names;
      while slot < |names|
        invariant 0 <= slot <= |names|
        invariant Slot(names, x) == slot + Slot(names[slot..], x)
      {
        if names[slot] == x {
          return true, slot;
        }
        assert names[slot..][1..] == names[slot + 1..];
        slot := slot + 1;
      }
      found := false;
    }

    /** Slot of a name, declaring it if it is not visible. */
    method LookupOrCreate(x: string) returns (ok: bool, slot: nat)
      modifies this`names
      ensures ok ==> names == Intern(old(names), x) && slot == Slot(names, x)
      ensures |old(names)| < MAX_LOCALS ==> ok
    {
      ok, slot := Lookup(x);
      if !ok {
        if |names| >= MAX_LOCALS {
          return false, 0;
        }
        SlotFresh(names, x);
        slot := |names|;
        names := names + [x];
        ok := true;
      }
    }

    method CompileLiteral(e: Expr, ghost t: Targets) returns (ok: bool)
      requires e.LitInt? || e.LitBool? || e.LitNull? || e.LitStr?
      modifies this
      ensures names == old(names) && loops == old(loops)
      ensures ok ==> ExprOk(e, Names(names), fns)
      ensures ok ==> Compiled(old(Now()), Now(), GenExpr(e, |old(code)|, names), ExprCost(e), t)
      ensures ExprOk(e, Names(names), fns) && Room(old(Now()), 1, ExprCost(e), 0) ==> ok
    {
      ghost var a := Now();
      match e
      case LitInt(n) =>
        if !IsInt64(n) {
          return false;
        }
        ok := EmitPlain(PUSH_INT, n, t);
      case LitBool(b) =>
        ok := EmitPlain(PUSH_BOOL, if b then 1 else 0, t);
      case LitNull =>
        if |consts| >= MAX_CONSTANTS {
          return false;
        }
        if PoolOk(consts, stringBytes) {
          PoolMore(consts, stringBytes, Null, 0);
        }
        consts := consts + [Null];
        ok := EmitConst(Null, |consts| - 1, a, CONST_COST, t);
      case LitStr(s) =>
        if |s| > MAX_LITERAL {
          return false;
        }
        var index;
        ok, index := AddString(s);
        if ok {
          ok := EmitConst(Str(s), index, a, ExprCost(e), t);
        }
    }

    method CompileExpr(e: Expr, ghost t: Targets) returns (ok: bool)
      modifies this
      ensures names == old(names) && loops == old(loops)
      ensures ok ==> ExprOk(e, Names(names), fns)
      ensures ok ==> Compiled(old(Now()), Now(), GenExpr(e, |old(code)|, names), ExprCost(e), t)
      ensures ExprOk(e, Names(names), fns) && Room(old(Now()), ExprSize(e), ExprCost(e), 0) ==> ok
      decreases e, 1
    {
      match e
      case Var(x) =>
        var slot;
        ok, slot := Lookup(x);
        if ok {
          ok := EmitPlain(LOAD_LOCAL, slot, t);
        }
      case Add(l, r) => ok := CompileBinary(e, l, r, ADD_INT, t);
      case Eq(l, r) => ok := CompileBinary(e, l, r, EQ, t);
      case StrConcat(_) => ok := CompileConcat(e, t);
      case If(_, _, _) => ok := CompileIf(e, t);
      case Call(_, _) => ok := CompileCall(e, t);
      case _ => ok := CompileLiteral(e, t);
    }

    method CompileBinary(e: Expr, l: Expr, r: Expr, op: Opcode, ghost t: Targets) returns (ok: bool)
      requires (e == Add(l, r) && op == ADD_INT) || (e == Expr.Eq(l, r) && op == EQ)
      modifies this
      ensures names == old(names) && loops == old(loops)
      ensures ok ==> ExprOk(e, Names(names), fns)
      ensures ok ==> Compiled(old(Now()), Now(), GenExpr(e, |old(code)|, names), ExprCost(e), t)
      ensures ExprOk(e, Names(names), fns) && Room(old(Now()), ExprSize(e), ExprCost(e), 0) ==> ok
      decreases e, 0
    {
      hide Compiled, Room, GenExpr, ExprOk, ExprSize, ExprCost;
      ghost var a, at := Now(), |code|;
      ghost var cl, cr := GenExpr(l, at, names), GenExpr(r, at + ExprSize(l), names);
      BinaryShape(e, l, r, op, at, names, fns);
      RoomLess(a, ExprSize(e), ExprCost(e), 0, ExprSize(l), ExprCost(l), 0);
      ok := CompileExpr(l, t);
      if !ok {
        return;
      }
      ghost var b := Now();
      PieceDone(a, b, cl, ExprCost(l), t, ExprSize(r) + 1, ExprCost(r), 0);
      ok := CompileOperand(r, op, true, t);
      if ok {
        PieceAppend(a, b, Now(), cl, cr + [I(op, 0)], ExprCost(l), ExprCost(r), t);
      }
    }

    static lemma {:induction false} BinaryShape(
      e: Expr, l: Expr, r: Expr, op: Opcode, at: nat, names: seq<string>, fns: Functions)
      requires (e == Add(l, r) && op == ADD_INT) || (e == Expr.Eq(l, r) && op == EQ)
      ensures GenExpr(e, at, names) == GenExpr(l, at, names) + (GenExpr(r, at + ExprSize(l), names) + [I(op, 0)])
      ensures ExprOk(e, Names(names), fns) <==> ExprOk(l, Names(names), fns) && ExprOk(r, Names(names), fns)
      ensures ExprSize(e) == ExprSize(l) + ExprSize(r) + 1 && ExprCost(e) == ExprCost(l) + ExprCost(r)
    {
      hide GenExprs, GenConcat, ExprsOk, ExprsSize, ConcatSize, ExprsCost, Slot;
      BinaryText(e, l, r, op, at, names);
      hide GenExpr;
    }

    static lemma {:induction false} BinaryText(e: Expr, l: Expr, r: Expr, op: Opcode, at: nat, names: seq<string>)
      requires (e == Add(l, r) && op == ADD_INT) || (e == Expr.Eq(l, r) && op == EQ)
      ensures GenExpr(e, at, names) == GenExpr(l, at, names) + (GenExpr(r, at + ExprSize(l), names) + [I(op, 0)])
    {
      hide GenExpr, ExprSize;
      AddCode(l, r, at, names);
      EqCode(l, r, at, names);
    }

    /** A child and, if asked for, the operator behind it. */
    method CompileOperand(e: Expr, op: Opcode, withOp: bool, ghost t: Targets) returns (ok: bool)
      modifies this
      ensures names == old(names) && loops == old(loops)
      ensures ok ==> ExprOk(e, Names(names), fns)
      ensures ok ==> Compiled(old(Now()), Now(),
        GenExpr(e, |old(code)|, names) + (if withOp then [I(op, 0)] else []), ExprCost(e), t)
      ensures ExprOk(e, Names(names), fns) && Room(old(Now()), ExprSize(e) + Extra(withOp), ExprCost(e), 0) ==> ok
      decreases e, 2
    {
      hide Compiled, Room, GenExpr, ExprOk;
      ghost var a := Now();
      ghost var ce := GenExpr(e, |code|, names);
      ghost var extra := Extra(withOp);
      RoomLess(a, ExprSize(e) + extra, ExprCost(e), 0, ExprSize(e), ExprCost(e), 0);
      ok := CompileExpr(e, t);
      if !ok {
        return;
      }
      ghost var b := Now();
      PieceDone(a, b, ce, ExprCost(e), t, extra, 0, 0);
      if withOp {
        RoomLess(b, 1, 0, 0, 1, 0, 0);
        ok := EmitPlain(op, 0, t);
        if ok {
          PieceAppend(a, b, Now(), ce, [I(op, 0)], ExprCost(e), 0, t);
        }
      } else {
        assert ce + [] == ce;
      }
    }

    static ghost function Extra(withOp: bool): nat {
      if withOp then 1 else 0
    }

    /** Children left to right, an operator after every child but the first. */
    method CompileConcat(e: Expr, ghost t: Targets) returns (ok: bool)
      requires e.StrConcat?
      modifies this
      ensures names == old(names) && loops == old(loops)
      ensures ok ==> ExprOk(e, Names(names), fns)
      ensures ok ==> Compiled(old(Now()), Now(), GenExpr(e, |old(code)|, names), ExprCost(e), t)
      ensures ExprOk(e, Names(names), fns) && Room(old(Now()), ExprSize(e), ExprCost(e), 0) ==> ok
      decreases e, 0
    {
      hide Compiled, Room, GenExpr, GenConcat, ExprOk, ExprsOk, ExprSize, ExprCost, ExprsCost, ConcatRest;
      ghost var a, at := Now(), |code|;
      ghost var done: seq<Sym>, spent: nat := [], 0;
      PieceNothing(a, t);
      ConcatStart(e, at, names, fns);
      var c, first := e.parts, true;
      while c.Exprs?
        invariant if first then c == e.parts else e.parts.Exprs?
        invariant names == old(names) && loops == old(loops)
        invariant spent + ExprsCost(c) == ExprCost(e)
        invariant Compiled(a, Now(), done, spent, t) && |code| == at + |done|
        invariant GenExpr(e, at, names) == done + ConcatRest(e, c, first, |code|, names)
        invariant ExprOk(e, Names(names), fns) && Room(a, ExprSize(e), ExprCost(e), 0) ==>
            Room(Now(), |ConcatRest(e, c, first, |code|, names)|, ExprsCost(c), 0)
        invariant ExprOk(e, Names(names), fns) <==> e.parts.Exprs? && ExprsOk(c, Names(names), fns)
        decreases c
      {
        ghost var b := Now();
        ghost var ch := GenExpr(c.head, |code|, names) + (if first then [] else [I(STR_CONCAT, 0)]);
        ghost var rest := ConcatRest(e, c.tail, false, |code| + |ch|, names);
        ConcatStep(e, c, first, |code|, names, fns);
        RoomLess(b, |ch + rest|, ExprsCost(c), 0, |ch|, ExprCost(c.head), 0);
        ok := CompileOperand(c.head, STR_CONCAT, !first, t);
        if !ok {
          return;
        }
        PieceDone(b, Now(), ch, ExprCost(c.head), t, |rest|, ExprsCost(c.tail), 0);
        PieceAppend(a, b, Now(), done, ch, spent, ExprCost(c.head), t);
        Assoc(done, ch, rest);
        done, spent := done + ch, spent + ExprCost(c.head);
        first := false;
        c := c.tail;
      }
      ok := !first;
      ConcatEnd(e, c, first, |code|, names, fns);
      assert done + [] == done;
    }

    /** Code of a concatenation's children still to be compiled. */
    static ghost function ConcatRest(e: Expr, c: ExprList, first: bool, at: nat, names: seq<string>): seq<Sym> {
      if first then GenExpr(e, at, names) else GenConcat(c, at, names)
    }

    static lemma {:induction false} ConcatStart(e: Expr, at: nat, names: seq<string>, fns: Functions)
      requires e.StrConcat?
      ensures GenExpr(e, at, names) == [] + ConcatRest(e, e.parts, true, at, names)
      ensures ExprCost(e) == ExprsCost(e.parts) && |ConcatRest(e, e.parts, true, at, names)| == ExprSize(e)
      ensures ExprOk(e, Names(names), fns) <==> e.parts.Exprs? && ExprsOk(e.parts, Names(names), fns)
    {
    }

    static lemma {:induction false} ConcatStep(
      e: Expr, c: ExprList, first: bool, at: nat, names: seq<string>, fns: Functions)
      requires e.StrConcat? && c.Exprs? && (first ==> c == e.parts)
      ensures var ch := GenExpr(c.head, at, names) + (if first then [] else [I(STR_CONCAT, 0)]);
        && |ch| == ExprSize(c.head) + Extra(!first)
        && ConcatRest(e, c, first, at, names) == ch + ConcatRest(e, c.tail, false, at + |ch|, names)
      ensures ExprsCost(c) == ExprCost(c.head) + ExprsCost(c.tail)
      ensures ExprsOk(c, Names(names), fns) <==>
        ExprOk(c.head, Names(names), fns) && ExprsOk(c.tail, Names(names), fns)
    {
      assert GenExpr(c.head, at, names) + [] == GenExpr(c.head, at, names);
    }

    static lemma {:induction false} ConcatEnd(
      e: Expr, c: ExprList, first: bool, at: nat, names: seq<string>, fns: Functions)
      requires e.StrConcat? && c.NoExprs? && (first ==> c == e.parts)
      ensures !first ==> ConcatRest(e, c, first, at, names) == []
      ensures ExprsOk(c, Names(names), fns) && ExprsCost(c) == 0
    {
    }

    /** A condition and the placeholder jump behind it; `b` is the state between the two.  `k`, `cost` and
        `depth` are what the rest of the conditional needs. */
    method CompileCond(c: Expr, ghost k: nat, ghost cost: nat, ghost depth: nat, ghost t: Targets)
      returns (ok: bool, site: nat, ghost b: Snap)
      modifies this
      ensures names == old(names) && loops == old(loops)
      ensures ok ==> ExprOk(c, Names(names), fns)
      ensures ok ==> Compiled(old(Now()), b, GenExpr(c, |old(code)|, names), ExprCost(c), t)
      ensures ok ==> Now() == Tested(b)
      ensures ok ==> site == |b.code| == |old(code)| + ExprSize(c) && |code| == site + 1 <= MAX_INSTRUCTIONS
      ensures ok ==> code[site].op == JUMP_IF_FALSE
      ensures Room(old(Now()), ExprSize(c) + 1 + k, ExprCost(c) + cost, depth) ==>
          (ExprOk(c, Names(names), fns) ==> ok) && (ok ==> Room(Now(), k, cost, depth))
      decreases c, 2
    {
      hide Compiled, Room, GenExpr, ExprOk, ExprSize, ExprCost;
      ghost var a := Now();
      site := 0;
      b := a;
      RoomLess(a, ExprSize(c) + 1 + k, ExprCost(c) + cost, depth, ExprSize(c), ExprCost(c), 0);
      ok := CompileExpr(c, t);
      if !ok {
        return;
      }
      b := Now();
      PieceDone(a, b, GenExpr(c, |old(code)|, names), ExprCost(c), t, 1 + k, cost, depth);
      RoomLess(b, 1 + k, cost, depth, 1, 0, 0);
      site := |code|;
      ok := Emit(JUMP_IF_FALSE, 0);
      RoomNext(b, Tested(b), 1, k, cost, depth);
    }

    method CompileIf(e: Expr, ghost t: Targets) returns (ok: bool)
      requires e.If?
      modifies this
      ensures names == old(names) && loops == old(loops)
      ensures ok ==> ExprOk(e, Names(names), fns)
      ensures ok ==> Compiled(old(Now()), Now(), GenExpr(e, |old(code)|, names), ExprCost(e), t)
      ensures ExprOk(e, Names(names), fns) && Room(old(Now()), ExprSize(e), ExprCost(e), 0) ==> ok
      decreases e, 0
    {
      hide Compiled, Room, GenExpr, ExprOk, ExprSize, ExprCost, Branch, Tested, Elsed;
      var c, x, y := e.cond, e.thn, e.els;
      ghost var a, at := Now(), |code|;
      ghost var cc := GenExpr(c, at, names);
      IfShape(e, names, fns);
      IfCode(e, at, names);
      var jumpFalse;
      ghost var b;
      ok, jumpFalse, b := CompileCond(c, ExprSize(x) + 1 + ExprSize(y), ExprCost(x) + ExprCost(y), 0, t);
      if !ok {
        return;
      }
      ghost var b', cx := Now(), GenExpr(x, |code|, names);
      var jumpEnd;
      ghost var d;
      ok, jumpEnd, d := CompileThenArm(x, jumpFalse, ExprSize(y), ExprCost(y), t);
      if !ok {
        return;
      }
      ghost var f := Now();
      ghost var cy := GenExpr(y, |code|, names);
      ok := CompileExpr(y, t);
      if !ok {
        return;
      }
      PatchEnd(jumpEnd, a, b, b', d, f, cc, cx, cy, ExprCost(c), ExprCost(x), ExprCost(y), t);
    }

    /** The then arm, the jump behind it, and the condition's jump patched; `d` is the state in between.  `k`
        and `cost` are what the else arm needs. */
    method CompileThenArm(x: Expr, jumpFalse: nat, ghost k: nat, ghost cost: nat, ghost t: Targets)
      returns (ok: bool, jumpEnd: nat, ghost d: Snap)
      requires jumpFalse < |code| && code[jumpFalse].op == JUMP_IF_FALSE
      modifies this
      ensures names == old(names) && loops == old(loops)
      ensures ok ==> ExprOk(x, Names(names), fns)
      ensures ok ==> Compiled(old(Now()), d, GenExpr(x, |old(code)|, names), ExprCost(x), t)
      ensures ok ==> jumpFalse < jumpEnd == |d.code| == |old(code)| + ExprSize(x) && |code| == jumpEnd + 1 <= MAX_INSTRUCTIONS
      ensures ok ==> Now() == Elsed(d, jumpFalse)
      ensures Room(old(Now()), ExprSize(x) + 1 + k, ExprCost(x) + cost, 0) ==>
          (ExprOk(x, Names(names), fns) ==> ok) && (ok ==> Room(Now(), k, cost, 0))
      decreases x, 2
    {
      hide Compiled, Room, GenExpr, ExprOk, ExprSize, ExprCost;
      ghost var a := Now();
      d, jumpEnd := a, 0;
      RoomLess(a, ExprSize(x) + 1 + k, ExprCost(x) + cost, 0, ExprSize(x), ExprCost(x), 0);
      ok := CompileExpr(x, t);
      if !ok {
        return;
      }
      d := Now();
      PieceDone(a, d, GenExpr(x, |a.code|, names), ExprCost(x), t, 1 + k, cost, 0);
      RoomLess(d, 1 + k, cost, 0, 1, 0, 0);
      KeepsSite(a, d, GenExpr(x, |a.code|, names), ExprCost(x), t, jumpFalse);
      jumpEnd := |code|;
      ok := EmitElse(jumpFalse);
      RoomNext(d, Elsed(d, jumpFalse), 1, k, cost, 0);
    }

    /** The state behind the jump after the condition. */
    static ghost function Tested(b: Snap): Snap {
      b.(code := b.code + [Instr(JUMP_IF_FALSE, 0)])
    }

    /** The state behind the jump over the else arm. */
    static ghost function Elsed(d: Snap, jumpFalse: nat): Snap
      requires jumpFalse < |d.code|
    {
      d.(code := (d.code + [Instr(JUMP, 0)])[jumpFalse := Instr(JUMP_IF_FALSE, |d.code| + 1)])
    }

    /** The jump over the else arm, and the condition's jump to it. */
    method EmitElse(jumpFalse: nat) returns (ok: bool)
      requires jumpFalse < |code| && code[jumpFalse].op == JUMP_IF_FALSE
      modifies this
      ensures ok <==> |old(code)| < MAX_INSTRUCTIONS
      ensures names == old(names)
      ensures ok ==> Now() == old(Now()).(
        code := (old(code) + [Instr(JUMP, 0)])[jumpFalse := Instr(JUMP_IF_FALSE, |old(code)| + 1)])
      ensures ok ==> code[|old(code)|] == Instr(JUMP, 0)
      ensures loops == old(loops)
    {
      ok := Emit(JUMP, 0);
      if ok {
        code := code[jumpFalse := Instr(code[jumpFalse].op, |code|)];
      }
    }

    /** The pieces of a conditional are there: the jump over the else arm goes to where the code ends now. */
    method PatchEnd(
      jumpEnd: nat, ghost a: Snap, ghost b: Snap, ghost c: Snap, ghost d: Snap, ghost e: Snap,
      ghost cc: seq<Sym>, ghost ct: seq<Sym>, ghost cf: seq<Sym>,
      ghost usedC: nat, ghost usedT: nat, ghost usedF: nat, ghost t: Targets)
      requires Compiled(a, b, cc, usedC, t) && c == Tested(b)
      requires Compiled(c, d, ct, usedT, t) && |b.code| < |d.code| == jumpEnd && e == Elsed(d, |b.code|)
      requires Compiled(e, Now(), cf, usedF, t)
      requires |c.code| <= MAX_INSTRUCTIONS && |e.code| <= MAX_INSTRUCTIONS
      modifies this`code
      ensures Compiled(a, Now(), Branch(cc, ct, cf, jumpEnd + 1, jumpEnd + 1 + |cf|), usedC + usedT + usedF, t)
    {
      hide Compiled, Branch;
      ghost var f := Now();
      PieceDone(e, f, cf, usedF, t, 0, 0, 0);
      KeepsSite(e, f, cf, usedF, t, jumpEnd);
      PieceBranch(a, b, c, d, e, f, cc, ct, cf, usedC, usedT, usedF, t);
      code := code[jumpEnd := Instr(code[jumpEnd].op, |code|)];
      assert Now() == f.(code := f.code[|d.code| := Instr(JUMP, |f.code|)]);
    }

    static lemma {:induction false} IfShape(e: Expr, names: seq<string>, fns: Functions)
      requires e.If?
      ensures ExprSize(e) == ExprSize(e.cond) + 1 + ExprSize(e.thn) + 1 + ExprSize(e.els)
      ensures ExprCost(e) == ExprCost(e.cond) + ExprCost(e.thn) + ExprCost(e.els)
      ensures ExprOk(e, Names(names), fns) <==>
        ExprOk(e.cond, Names(names), fns) && ExprOk(e.thn, Names(names), fns) && ExprOk(e.els, Names(names), fns)
    {
    }

    method CompileCall(e: Expr, ghost t: Targets) returns (ok: bool)
      requires e.Call?
      modifies this
      ensures names == old(names) && loops == old(loops)
      ensures ok ==> ExprOk(e, Names(names), fns)
      ensures ok ==> Compiled(old(Now()), Now(), GenExpr(e, |old(code)|, names), ExprCost(e), t)
      ensures ExprOk(e, Names(names), fns) && Room(old(Now()), ExprSize(e), ExprCost(e), 0) ==> ok
      decreases e, 0
    {
      hide Compiled, Room, GenExpr, GenExprs, ExprOk, ExprsOk, ExprSize, ExprsSize, ExprCost, ExprsCost, Length,
        IsHostTarget;
      ghost var a := Now();
      ghost var args := GenExprs(e.args, |code|, names);
      CallShape(e, |code|, names, fns);
      if IsHostTarget(e.target) {
        return false;
      }
      var count;
      ok, count := CompileArgs(e.args, t);
      if !ok || e.target !in fns || count != |fns[e.target].params| {
        return false;
      }
      ghost var b := Now();
      RoomLess(b, 1, CALL_COST, 0, 1, CALL_COST, 0);
      ok := EmitCall(e.target, t);
      if ok {
        PieceAppend(a, b, Now(), args, [CallOf(e.target)], ExprsCost(e.args), CALL_COST, t);
      }
    }

    /** Arguments left to right, at most MAX_CALL_ARGS of them. */
    method CompileArgs(args: ExprList, ghost t: Targets) returns (ok: bool, count: nat)
      modifies this
      ensures names == old(names) && loops == old(loops)
      ensures ok ==> ExprsOk(args, Names(names), fns) && count == Length(args) <= MAX_CALL_ARGS
      ensures ok ==> Compiled(old(Now()), Now(), GenExprs(args, |old(code)|, names), ExprsCost(args), t)
      ensures Room(old(Now()), ExprsSize(args) + 1, ExprsCost(args) + CALL_COST, 0) ==>
        (ExprsOk(args, Names(names), fns) && Length(args) <= MAX_CALL_ARGS ==> ok) &&
        (ok ==> Room(Now(), 1, CALL_COST, 0))
      decreases args, 0
    {
      hide Compiled, Room, GenExpr, GenExprs, ExprOk, ExprsOk, ExprSize, ExprsSize, ExprCost, ExprsCost, Length;
      ghost var a, at := Now(), |code|;
      ghost var done: seq<Sym>, spent: nat := [], 0;
      PieceNothing(a, t);
      var c := args;
      count := 0;
      while c.Exprs?
        invariant names == old(names) && loops == old(loops)
        invariant 0 <= count <= MAX_CALL_ARGS && count + Length(c) == Length(args)
        invariant spent + ExprsCost(c) == ExprsCost(args)
        invariant Compiled(a, Now(), done, spent, t) && |code| == at + |done|
        invariant GenExprs(args, at, names) == done + GenExprs(c, |code|, names)
        invariant Room(a, ExprsSize(args) + 1, ExprsCost(args) + CALL_COST, 0) ==>
            Room(Now(), ExprsSize(c) + 1, ExprsCost(c) + CALL_COST, 0)
        invariant ExprsOk(args, Names(names), fns) <==> ExprsOk(c, Names(names), fns)
        decreases c
      {
        ghost var b := Now();
        ghost var ch := GenExpr(c.head, |code|, names);
        ArgStep(c, |code|, names, fns);
        if count >= MAX_CALL_ARGS {
          return false, count;
        }
        RoomLess(b, ExprsSize(c) + 1, ExprsCost(c) + CALL_COST, 0, ExprSize(c.head), ExprCost(c.head), 0);
        ok := CompileExpr(c.head, t);
        if !ok {
          return;
        }
        PieceDone(b, Now(), ch, ExprCost(c.head), t, ExprsSize(c.tail) + 1, ExprsCost(c.tail) + CALL_COST, 0);
        PieceAppend(a, b, Now(), done, ch, spent, ExprCost(c.head), t);
        Assoc(done, ch, GenExprs(c.tail, |code|, names));
        done, spent := done + ch, spent + ExprCost(c.head);
        count := count + 1;
        c := c.tail;
      }
      ArgsEnd(c, |code|, names, fns);
      assert done + [] == done;
      ok := true;
    }

    static lemma {:induction false} Assoc(a: seq<Sym>, b: seq<Sym>, c: seq<Sym>)
      ensures (a + b) + c == a + (b + c)
    {
    }

    /** The CALL itself: its operand if the target is compiled, a fixup otherwise. */
    method EmitCall(target: string, ghost t: Targets) returns (ok: bool)
      modifies this
      ensures names == old(names) && loops == old(loops)
      ensures ok ==> Compiled(old(Now()), Now(), [CallOf(target)], CALL_COST, t)
      ensures Room(old(Now()), 1, CALL_COST, 0) ==> ok
    {
      hide Compiled, Room;
      ghost var a := Now();
      var site := |code|;
      CallOwed(a, target, t);
      ok := Emit(CALL, 0);
      if !ok {
        return;
      }
      if target in entries {
        code := code[site := Instr(code[site].op, entries[target])];
        assert code == a.code + [Instr(CALL, entries[target])];
      } else {
        if |fixups| >= MAX_FIXUPS {
          return false;
        }
        fixups := fixups + [Fixup(site, target)];
      }
    }

    /** A call is resolved at once, or owed a fixup. */
    static lemma {:induction false} CallOwed(a: Snap, f: string, t: Targets)
      ensures Room(a, 1, CALL_COST, 0) ==> |a.code| < MAX_INSTRUCTIONS && |a.fixups| < MAX_FIXUPS
      ensures |a.code| < MAX_INSTRUCTIONS && f in a.entries ==>
        Compiled(a, a.(code := a.code + [Instr(CALL, a.entries[f])]), [CallOf(f)], CALL_COST, t)
      ensures |a.code| < MAX_INSTRUCTIONS ==>
        Compiled(a, a.(code := a.code + [Instr(CALL, 0)], fixups := a.fixups + [Fixup(|a.code|, f)]), [CallOf(f)],
          CALL_COST, t)
    {
      hide PoolOk;
      var n := a.(code := a.code + [Instr(CALL, 0)], fixups := a.fixups + [Fixup(|a.code|, f)]);
      assert n.fixups[|a.fixups|..] == [Fixup(|a.code|, f)];
      assert Fixup(|a.code|, f) in n.fixups;
    }

    static lemma {:induction false} CallShape(e: Expr, at: nat, names: seq<string>, fns: Functions)
      requires e.Call?
      ensures GenExpr(e, at, names) == GenExprs(e.args, at, names) + [CallOf(e.target)]
      ensures ExprSize(e) == ExprsSize(e.args) + 1 && ExprCost(e) == ExprsCost(e.args) + CALL_COST
      ensures ExprOk(e, Names(names), fns) <==>
        !IsHostTarget(e.target) && ExprsOk(e.args, Names(names), fns) && Length(e.args) <= MAX_CALL_ARGS &&
        e.target in fns && Length(e.args) == |fns[e.target].params|
    {
    }

    static lemma {:induction false} ArgStep(c: ExprList, at: nat, names: seq<string>, fns: Functions)
      requires c.Exprs?
      ensures GenExprs(c, at, names) == GenExpr(c.head, at, names) + GenExprs(c.tail, at + ExprSize(c.head), names)
      ensures ExprsSize(c) == ExprSize(c.head) + ExprsSize(c.tail)
      ensures ExprsCost(c) == ExprCost(c.head) + ExprsCost(c.tail) && Length(c) == 1 + Length(c.tail)
      ensures ExprsOk(c, Names(names), fns) <==>
        ExprOk(c.head, Names(names), fns) && ExprsOk(c.tail, Names(names), fns)
    {
    }

    static lemma {:induction false} ArgsEnd(c: ExprList, at: nat, names: seq<string>, fns: Functions)
      requires c.NoExprs?
      ensures GenExprs(c, at, names) == [] && ExprsSize(c) == 0 && ExprsCost(c) == 0 && Length(c) == 0
      ensures ExprsOk(c, Names(names), fns)
    {
    }

    // ---------- statements ----------

    /** The statement is well formed and every resource it can use has room for it. */
    static ghost predicate StmtFits(s: Stmt, names: seq<string>, fns: Functions, n: Snap) {
      && StmtOk(s, Names(names), fns, n.loops != [])
      && |names| + StmtSize(s) <= MAX_LOCALS
      && Room(n, StmtSize(s), StmtCost(s), LoopDepth(s))
    }

    static ghost predicate ListFits(ss: StmtList, names: seq<string>, fns: Functions, n: Snap) {
      && StmtsOk(ss, Names(names), fns, n.loops != [])
      && |names| + ListSize(ss) <= MAX_LOCALS
      && Room(n, ListSize(ss), ListCost(ss), ListDepth(ss))
    }

    static lemma {:induction false} HeadFits(c: StmtList, names: seq<string>, fns: Functions, n: Snap)
      requires c.Stmts? && ListFits(c, names, fns, n)
      ensures StmtFits(c.head, names, fns, n)
    {
      hide Room;
      RoomLess(n, ListSize(c), ListCost(c), ListDepth(c), StmtSize(c.head), StmtCost(c.head), LoopDepth(c.head));
    }

    static lemma {:induction false} TailFits(
      c: StmtList, names: seq<string>, fns: Functions, a: Snap, n: Snap, ch: seq<Sym>, t: Targets)
      requires c.Stmts? && ListFits(c, names, fns, a) && !DidReturn(c.head) && |ch| == StmtSize(c.head)
      requires Compiled(a, n, ch, StmtCost(c.head), t)
      ensures ListFits(c.tail, After(c.head, names), fns, n)
    {
      hide Room, Compiled, StmtsOk, StmtOk, ListSize, StmtSize, ListCost, StmtCost, ListDepth, LoopDepth, GenList,
        GenStmt, After;
      ListStep(c, 0, names, t, fns, a.loops != []);
      AfterSize(c.head, names, fns, a.loops != []);
      RoomLess(a, ListSize(c), ListCost(c), ListDepth(c),
        |ch| + ListSize(c.tail), StmtCost(c.head) + ListCost(c.tail), ListDepth(c.tail));
      PieceDone(a, n, ch, StmtCost(c.head), t, ListSize(c.tail), ListCost(c.tail), ListDepth(c.tail));
    }

    /** A statement declares at most one name, and then it has code. */
    static lemma {:induction false} AfterSize(s: Stmt, names: seq<string>, fns: Functions, inLoop: bool)
      requires StmtOk(s, Names(names), fns, inLoop)
      ensures |After(s, names)| <= |names| + StmtSize(s)
    {
      hide ExprSize, ExprOk;
    }

    /** An expression and the instruction that consumes its value. */
    method CompileThen(e: Expr, op: Opcode, arg: int, ghost t: Targets) returns (ok: bool)
      modifies this
      ensures names == old(names) && loops == old(loops)
      ensures ok ==> ExprOk(e, Names(names), fns)
      ensures ok ==> Compiled(old(Now()), Now(), GenExpr(e, |old(code)|, names) + [I(op, arg)], ExprCost(e), t)
      ensures ExprOk(e, Names(names), fns) && Room(old(Now()), ExprSize(e) + 1, ExprCost(e), 0) ==> ok
    {
      hide Compiled, Room, GenExpr, ExprOk;
      ghost var a := Now();
      ghost var ce := GenExpr(e, |code|, names);
      RoomLess(a, ExprSize(e) + 1, ExprCost(e), 0, ExprSize(e), ExprCost(e), 0);
      ok := CompileExpr(e, t);
      if !ok {
        return;
      }
      ghost var b := Now();
      PieceDone(a, b, ce, ExprCost(e), t, 1, 0, 0);
      RoomLess(b, 1, 0, 0, 1, 0, 0);
      ok := EmitPlain(op, arg, t);
      if ok {
        PieceAppend(a, b, Now(), ce, [I(op, arg)], ExprCost(e), 0, t);
      }
    }

    method CompileStmt(s: Stmt, ghost t: Targets) returns (ok: bool, didReturn: bool)
      modifies this
      ensures ok ==> StmtOk(s, Names(old(names)), fns, old(loops) != []) && didReturn == DidReturn(s)
      ensures ok ==> names == After(s, old(names))
      ensures ok ==>
        Compiled(old(Now()), Now(), GenStmt(s, |old(code)|, old(names), t.brk, t.cont), StmtCost(s), t)
      ensures StmtFits(s, old(names), fns, old(Now())) ==> ok
      decreases s, 1
    {
      hide Compiled, Room, ExprOk, GenExpr, GenList;
      didReturn := false;
      ghost var a := Now();
      match s
      case Let(x, e) =>
        var slot;
        ok, slot := LookupOrCreate(x);
        if ok {
          DeclareIntern(names, x, old(names));
          ok := CompileThen(e, STORE_LOCAL, slot, t);
        }
      case Eval(e) => ok := CompileThen(e, POP, 0, t);
      case Return(e) =>
        ok := CompileThen(e, RETURN, 0, t);
        didReturn := true;
      case Break => ok := CompileJump(true, t);
      case Continue => ok := CompileJump(false, t);
      case IfStmt(_, _, _) => ok, didReturn := CompileIfStmt(s, t);
      case Loop(body) => ok := CompileLoop(body, t);
      case Block(body) => ok, didReturn := CompileBlock(body, t);
    }

    static lemma {:induction false} DeclareIntern(names: seq<string>, x: string, before: seq<string>)
      requires names == Intern(before, x)
      ensures Names(names) == Names(before) + {x}
    {
    }

    /** Break or Continue: a placeholder jump, its site recorded with the innermost loop. */
    method CompileJump(isBreak: bool, ghost t: Targets) returns (ok: bool)
      modifies this
      ensures names == old(names)
      ensures ok ==> old(loops) != []
      ensures ok ==> Compiled(old(Now()), Now(), [I(JUMP, if isBreak then t.brk else t.cont)], 0, t)
      ensures old(loops) != [] && Room(old(Now()), 1, 0, 0) ==> ok
    {
      hide Compiled;
      if loops == [] {
        return false;
      }
      var frame := loops[|loops| - 1];
      if |if isBreak then frame.breaks else frame.continues| >= MAX_LOOP_FIXUPS {
        return false;
      }
      ghost var before := Now();
      var site := |code|;
      ok := Emit(JUMP, 0);
      if ok {
        var recorded := if isBreak then frame.(breaks := frame.breaks + [site])
                        else frame.(continues := frame.continues + [site]);
        loops := loops[|loops| - 1 := recorded];
        JumpOwed(before, isBreak, t);
      }
    }

    static lemma {:induction false} JumpOwed(a: Snap, isBreak: bool, t: Targets)
      requires a.loops != [] && |a.code| < MAX_INSTRUCTIONS
      ensures Compiled(a, WithJump(a, isBreak), [I(JUMP, if isBreak then t.brk else t.cont)], 0, t)
    {
      var n, top := WithJump(a, isBreak), a.loops[|a.loops| - 1];
      assert n.code[|a.code|] == Instr(JUMP, 0);
      if isBreak {
        assert n.Breaks() == top.breaks + [|a.code|] && n.Continues() == top.continues;
      } else {
        assert n.Continues() == top.continues + [|a.code|] && n.Breaks() == top.breaks;
      }
    }

    /** A placeholder jump behind the code, recorded with the innermost loop. */
    static ghost function WithJump(a: Snap, isBreak: bool): Snap
      requires a.loops != []
    {
      var top := a.loops[|a.loops| - 1];
      var recorded := if isBreak then top.(breaks := top.breaks + [|a.code|])
                      else top.(continues := top.continues + [|a.code|]);
      a.(code := a.code + [Instr(JUMP, 0)], loops := a.loops[|a.loops| - 1 := recorded])
    }

    /** Statements up to the first returning one; the names declared inside go out of scope. */
    method CompileBlock(ss: StmtList, ghost t: Targets) returns (ok: bool, didReturn: bool)
      modifies this
      ensures ok ==> StmtsOk(ss, Names(old(names)), fns, old(loops) != []) && didReturn == ListDidReturn(ss)
      ensures ok ==> names == old(names)
      ensures ok ==>
        Compiled(old(Now()), Now(), GenList(ss, |old(code)|, old(names), t.brk, t.cont), ListCost(ss), t)
      ensures ListFits(ss, old(names), fns, old(Now())) ==> ok
      decreases ss, 0
    {
      hide Compiled, ListFits, StmtFits, GenStmt, GenList, StmtOk, StmtsOk, StmtSize, ListSize, StmtCost, ListCost,
        DidReturn, ListDidReturn, LoopDepth, ListDepth, After;
      var scope := |names|;
      didReturn := false;
      ghost var a, at, names0, inLoop := Now(), |code|, names, loops != [];
      ghost var fits := ListFits(ss, names, fns, a);
      ghost var done: seq<Sym>, spent: nat := [], 0;
      PieceNothing(a, t);
      var c := ss;
      while c.Stmts?
        invariant scope <= |names| && names[..scope] == names0 && (loops != []) == inLoop
        invariant spent + ListCost(c) <= ListCost(ss)
        invariant Compiled(a, Now(), done, spent, t) && |code| == at + |done|
        invariant GenList(ss, at, names0, t.brk, t.cont) == done + GenList(c, |code|, names, t.brk, t.cont)
        invariant fits ==> ListFits(c, names, fns, Now())
        invariant StmtsOk(ss, Names(names0), fns, inLoop) <==> StmtsOk(c, Names(names), fns, inLoop)
        invariant ListDidReturn(ss) <==> ListDidReturn(c)
        invariant !didReturn
        decreases c
      {
        ghost var b, names1 := Now(), names;
        ghost var ch := GenStmt(c.head, |code|, names, t.brk, t.cont);
        ListStep(c, |code|, names, t, fns, inLoop);
        if fits {
          HeadFits(c, names, fns, b);
        }
        ok, didReturn := CompileStmt(c.head, t);
        if !ok {
          if scope <= |names| {
            names := names[..scope];
          }
          return;
        }
        PieceAppend(a, b, Now(), done, ch, spent, StmtCost(c.head), t);
        done, spent := done + ch, spent + StmtCost(c.head);
        assert |names0| <= |names| && names[..scope] == names0 by { AfterPrefix(c.head, names1, scope); }
        if didReturn {
          assert ch + [] == ch;
          PieceMore(a, Now(), done, spent, ListCost(ss), t);
          names := names[..scope];
          return;
        }
        PieceDone(b, Now(), ch, StmtCost(c.head), t, 0, 0, 0);
        if fits {
          TailFits(c, names1, fns, b, Now(), ch, t);
        }
        c := c.tail;
      }
      ListEnd(c, |code|, names, t, fns, inLoop);
      assert done + [] == done;
      PieceMore(a, Now(), done, spent, ListCost(ss), t);
      names := names[..scope];
      ok := true;
    }

    static lemma {:induction false} AfterPrefix(s: Stmt, names: seq<string>, scope: nat)
      requires scope <= |names|
      ensures scope <= |After(s, names)| && After(s, names)[..scope] == names[..scope]
    {
    }

    static lemma {:induction false} ListStep(
      c: StmtList, at: nat, names: seq<string>, t: Targets, fns: Functions, inLoop: bool)
      requires c.Stmts?
      ensures GenList(c, at, names, t.brk, t.cont) ==
        GenStmt(c.head, at, names, t.brk, t.cont) +
        if DidReturn(c.head) then []
        else GenList(c.tail, at + StmtSize(c.head), After(c.head, names), t.brk, t.cont)
      ensures ListSize(c) == StmtSize(c.head) + if DidReturn(c.head) then 0 else ListSize(c.tail)
      ensures ListCost(c) == StmtCost(c.head) + ListCost(c.tail)
      ensures LoopDepth(c.head) <= ListDepth(c) && ListDepth(c.tail) <= ListDepth(c)
      ensures ListDidReturn(c) <==> DidReturn(c.head) || ListDidReturn(c.tail)
      ensures StmtsOk(c, Names(names), fns, inLoop) <==>
        && StmtOk(c.head, Names(names), fns, inLoop)
        && (DidReturn(c.head) || StmtsOk(c.tail, Names(After(c.head, names)), fns, inLoop))
    {
      hide GenStmt, StmtSize, StmtCost, LoopDepth, DidReturn, StmtOk;
      DeclareNames(c.head, names);
    }

    static lemma {:induction false} DeclareNames(s: Stmt, names: seq<string>)
      ensures Declare(s, Names(names)) == Names(After(s, names))
    {
    }

    static lemma {:induction false} ListEnd(
      c: StmtList, at: nat, names: seq<string>, t: Targets, fns: Functions, inLoop: bool)
      requires c.NoStmts?
      ensures GenList(c, at, names, t.brk, t.cont) == [] && !ListDidReturn(c)
      ensures StmtsOk(c, Names(names), fns, inLoop)
    {
    }

    method CompileIfStmt(s: Stmt, ghost t: Targets) returns (ok: bool, didReturn: bool)
      requires s.IfStmt?
      modifies this
      ensures ok ==> StmtOk(s, Names(old(names)), fns, old(loops) != []) && didReturn == DidReturn(s)
      ensures ok ==> names == old(names)
      ensures ok ==>
        Compiled(old(Now()), Now(), GenStmt(s, |old(code)|, old(names), t.brk, t.cont), StmtCost(s), t)
      ensures StmtFits(s, old(names), fns, old(Now())) ==> ok
      decreases s, 0
    {
      hide Compiled, Room, GenStmt, GenList, GenExpr, StmtOk, StmtsOk, ExprOk, StmtSize, ListSize, ExprSize,
        StmtCost, ListCost, ExprCost, LoopDepth, ListDepth, DidReturn, ListDidReturn, Branch, Names, Tested, Elsed;
      var c, x, y := s.cond, s.thn, s.els;
      ghost var a, at := Now(), |code|;
      ghost var cc := GenExpr(c, at, names);
      ghost var depth := Max(ListDepth(x), ListDepth(y));
      didReturn := false;
      IfStmtShape(s, names, fns, loops != []);
      IfStmtCode(s, at, names, t.brk, t.cont);
      var jumpFalse;
      ghost var b;
      ok, jumpFalse, b := CompileCond(c, ListSize(x) + 1 + ListSize(y), ListCost(x) + ListCost(y), depth, t);
      if !ok {
        return;
      }
      ghost var b', cx := Now(), GenList(x, |code|, names, t.brk, t.cont);
      var jumpEnd, thenReturn;
      ghost var d;
      ok, jumpEnd, thenReturn, d := CompileThenBlock(x, jumpFalse, ListSize(y), ListCost(y), depth, t);
      if !ok {
        return;
      }
      ghost var f := Now();
      ghost var cy := GenList(y, |code|, names, t.brk, t.cont);
      RoomLess(f, ListSize(y), ListCost(y), depth, ListSize(y), ListCost(y), ListDepth(y));
      var elseReturn;
      ok, elseReturn := CompileBlock(y, t);
      if !ok {
        return;
      }
      PatchEnd(jumpEnd, a, b, b', d, f, cc, cx, cy, ExprCost(c), ListCost(x), ListCost(y), t);
      didReturn := thenReturn && elseReturn;
    }

    /** The same for an arm that is a block. */
    method CompileThenBlock(
      x: StmtList, jumpFalse: nat, ghost k: nat, ghost cost: nat, ghost depth: nat, ghost t: Targets)
      returns (ok: bool, jumpEnd: nat, didReturn: bool, ghost d: Snap)
      requires jumpFalse < |code| && code[jumpFalse].op == JUMP_IF_FALSE
      modifies this
      ensures ok ==> StmtsOk(x, Names(old(names)), fns, old(loops) != []) && didReturn == ListDidReturn(x)
      ensures ok ==> names == old(names) && |loops| == |old(loops)|
      ensures ok ==> Compiled(old(Now()), d, GenList(x, |old(code)|, old(names), t.brk, t.cont), ListCost(x), t)
      ensures ok ==> jumpFalse < jumpEnd == |d.code| == |old(code)| + ListSize(x) && |code| == jumpEnd + 1 <= MAX_INSTRUCTIONS
      ensures ok ==> Now() == Elsed(d, jumpFalse)
      ensures (ListDepth(x) <= depth && |old(names)| + ListSize(x) <= MAX_LOCALS
        && Room(old(Now()), ListSize(x) + 1 + k, ListCost(x) + cost, depth)) ==>
          (StmtsOk(x, Names(old(names)), fns, old(loops) != []) ==> ok) && (ok ==> Room(Now(), k, cost, depth))
      decreases x, 2
    {
      hide Compiled, Room, GenList, StmtsOk, ListSize, ListCost, ListDepth, ListDidReturn;
      ghost var a, cx := Now(), GenList(x, |code|, names, t.brk, t.cont);
      d, jumpEnd := a, 0;
      if ListDepth(x) <= depth {
        RoomLess(a, ListSize(x) + 1 + k, ListCost(x) + cost, depth, ListSize(x), ListCost(x), ListDepth(x));
      }
      ok, didReturn := CompileBlock(x, t);
      if !ok {
        return;
      }
      d := Now();
      PieceDone(a, d, cx, ListCost(x), t, 1 + k, cost, depth);
      RoomLess(d, 1 + k, cost, depth, 1, 0, 0);
      KeepsSite(a, d, cx, ListCost(x), t, jumpFalse);
      jumpEnd := |code|;
      ok := EmitElse(jumpFalse);
      RoomNext(d, Elsed(d, jumpFalse), 1, k, cost, depth);
    }

    static lemma {:induction false} IfStmtShape(s: Stmt, names: seq<string>, fns: Functions, inLoop: bool)
      requires s.IfStmt?
      ensures StmtSize(s) == ExprSize(s.cond) + 1 + ListSize(s.thn) + 1 + ListSize(s.els)
      ensures StmtCost(s) == ExprCost(s.cond) + ListCost(s.thn) + ListCost(s.els)
      ensures LoopDepth(s) == Max(ListDepth(s.thn), ListDepth(s.els))
      ensures DidReturn(s) <==> ListDidReturn(s.thn) && ListDidReturn(s.els)
      ensures StmtOk(s, Names(names), fns, inLoop) <==>
        && ExprOk(s.cond, Names(names), fns)
        && StmtsOk(s.thn, Names(names), fns, inLoop)
        && StmtsOk(s.els, Names(names), fns, inLoop)
    {
      hide ExprSize, ListSize, ExprCost, ListCost, ListDepth, ListDidReturn, ExprOk, StmtsOk;
    }

    /** Body, jump back, then every recorded break and continue site is patched. */
    method CompileLoop(body: StmtList, ghost t: Targets) returns (ok: bool)
      modifies this
      ensures ok ==> StmtsOk(body, Names(old(names)), fns, true)
      ensures ok ==> names == old(names)
      ensures ok ==>
        Compiled(old(Now()), Now(), GenStmt(Loop(body), |old(code)|, old(names), t.brk, t.cont), ListCost(body), t)
      ensures StmtFits(Loop(body), old(names), fns, old(Now())) ==> ok
      decreases body, 1
    {
      hide Compiled, Room, GenStmt, GenList, StmtOk, StmtsOk, StmtSize, ListSize,
        StmtCost, ListCost, LoopDepth, ListDepth, Patch;
      ghost var a := Now();
      var start := |code|;
      ghost var inner := Targets(start + ListSize(body) + 1, start);
      LoopShape(body, start, names, t, fns, loops != []);
      ghost var fits := StmtFits(Loop(body), names, fns, a);
      if fits {
        RoomForLoop(a, ListSize(body) + 1, ListCost(body), ListDepth(body));
      }
      if |loops| >= MAX_LOOP_DEPTH {
        return false;
      }
      loops := loops + [LoopFrame(start, [], [])];
      ghost var w, cb := Now(), GenList(body, start, names, inner.brk, inner.cont);
      assert w == WithLoop(a);
      RoomLess(w, ListSize(body) + 1, ListCost(body), ListDepth(body), ListSize(body), ListCost(body), ListDepth(body));
      var bodyReturn;
      ok, bodyReturn := CompileBlock(body, inner);
      if !ok {
        return;
      }
      ghost var b := Now();
      PieceDone(w, b, cb, ListCost(body), inner, 1, 0, 0);
      RoomLess(b, 1, 0, 0, 1, 0, 0);
      ok := FinishLoop(start, a, cb, ListCost(body), inner, t);
    }

    /** The jump back, every recorded site patched, and the loop closed. */
    method FinishLoop(
      start: nat, ghost a: Snap, ghost cb: seq<Sym>, ghost used: nat, ghost inner: Targets, ghost t: Targets)
      returns (ok: bool)
      requires Compiled(WithLoop(a), Now(), cb, used, inner)
      requires start == |a.code| && inner == Targets(start + |cb| + 1, start)
      modifies this
      ensures ok <==> |old(code)| < MAX_INSTRUCTIONS
      ensures ok ==> Compiled(a, Now(), cb + [I(JUMP, start)], used, t)
      ensures names == old(names)
    {
      hide Compiled, Patch;
      ghost var w, b, all := WithLoop(a), Now(), cb + [I(JUMP, start)];
      PieceDone(w, b, cb, used, inner, 1, 0, 0);
      ok := EmitPlain(JUMP, start, inner);
      if !ok {
        return;
      }
      ghost var n := Now();
      PieceAppend(w, b, n, cb, [I(JUMP, start)], used, 0, inner);
      PieceLoop(a, n, all, used, inner, t);
      PieceDone(w, n, all, used, inner, 0, 0, 0);
      var frame := loops[|loops| - 1];
      PatchSites(frame.breaks, |code|);
      PatchSites(frame.continues, start);
      loops := loops[..|loops| - 1];
      assert Now() == CloseLoop(n, inner);
    }

    static lemma {:induction false} LoopShape(
      body: StmtList, at: nat, names: seq<string>, t: Targets, fns: Functions, inLoop: bool)
      ensures StmtSize(Loop(body)) == ListSize(body) + 1 && StmtCost(Loop(body)) == ListCost(body)
      ensures LoopDepth(Loop(body)) == 1 + ListDepth(body)
      ensures StmtOk(Loop(body), Names(names), fns, inLoop) <==> StmtsOk(body, Names(names), fns, true)
      ensures GenStmt(Loop(body), at, names, t.brk, t.cont) ==
        GenList(body, at, names, at + ListSize(body) + 1, at) + [I(JUMP, at)]
    {
      hide ListSize, ListCost, ListDepth, StmtsOk, GenList;
    }

    /** Set the operand of every listed instruction. */
    method PatchSites(sites: seq<nat>, target: nat)
      requires forall x :: x in sites ==> x < |code|
      modifies this`code
      ensures code == Patch(old(code), sites, target)
    {
      var i := 0;
      while i < |sites|
        invariant 0 <= i <= |sites|
        invariant code == Patch(old(code), sites[..i], target)
      {
        assert sites[i] in sites;
        code := code[sites[i] := Instr(code[sites[i]].op, target)];
        assert sites[..i + 1] == sites[..i] + [sites[i]];
        i := i + 1;
      }
      assert sites[..i] == sites;
    }

    // ---------- functions ----------

    /** One function: its parameters stored in reverse, its body, and a RETURN if the body can fall through. */
    method CompileFn(f: string) returns (ok: bool)
      requires f in fns && f !in entries && loops == []
      modifies this
      ensures ok ==> loops == [] && FnOk(fns[f], fns) && entries == old(entries)[f := |old(code)|]
      ensures ok ==> Compiled(old(Now()), Now().(entries := old(entries)), GenFn(fns[f], |old(code)|),
        ListCost(fns[f].body), NOWHERE)
      ensures FnFits(fns[f], fns, old(Now())) ==> ok
    {
      hide Compiled, Room, GenList, StmtsOk, ListSize, ListCost, ListDepth, ListDidReturn, Prologue, InternAll;
      ghost var a := Now();
      var fn := fns[f];
      var entry := |code|;
      ghost var fits := FnFits(fn, fns, a);
      ghost var n, body := |fn.params|, fn.body;
      ok := AllocateParams(fn.params);
      if !ok {
        return;
      }
      ghost var locals := names;
      ghost var pro := Prologue(fn.params, locals);
      ghost var cb := GenList(body, entry + n, locals, 0, 0);
      ghost var rest := if ListDidReturn(body) then 0 else 1;
      RoomLess(a, FnSize(fn), ListCost(body), ListDepth(body), n, 0, 0);
      ok := EmitPrologue(fn.params);
      if !ok {
        return;
      }
      ghost var b := Now();
      PieceDone(a, b, pro, 0, NOWHERE, ListSize(body) + rest, ListCost(body), ListDepth(body));
      RoomLess(b, ListSize(body) + rest, ListCost(body), ListDepth(body),
        ListSize(body), ListCost(body), ListDepth(body));
      RoomLess(b, ListSize(body) + rest, ListCost(body), ListDepth(body), ListSize(body) + rest, ListCost(body), 0);
      var didReturn;
      ok, didReturn := CompileBlock(fn.body, NOWHERE);
      if !ok {
        return;
      }
      ghost var c := Now();
      PieceAppend(a, b, c, pro, cb, 0, ListCost(body), NOWHERE);
      PieceDone(b, c, cb, ListCost(body), NOWHERE, rest, 0, 0);
      if !didReturn {
        RoomLess(c, 1, 0, 0, 1, 0, 0);
        ok := EmitPlain(RETURN, 0, NOWHERE);
        if !ok {
          return;
        }
        PieceAppend(a, c, Now(), pro + cb, [I(RETURN, 0)], ListCost(body), 0, NOWHERE);
        PieceDone(c, Now(), [I(RETURN, 0)], 0, NOWHERE, 0, 0, 0);
      } else {
        assert pro + cb + [] == pro + cb;
      }
      entries := entries[f := entry];
      assert Now().(entries := a.entries) == Snap(code, consts, stringBytes, a.entries, fixups, loops);
    }

    /** A slot per parameter name. */
    method AllocateParams(params: seq<string>) returns (ok: bool)
      modifies this`names
      ensures ok ==> names == InternAll(params) && Names(names) == Names(params) && |names| <= |params|
      ensures |params| <= MAX_LOCALS ==> ok
    {
      names := [];
      var i := 0;
      while i < |params|
        invariant 0 <= i <= |params|
        invariant names == InternAll(params[..i]) && Names(names) == Names(params[..i]) && |names| <= i
      {
        assert params[..i + 1][..i] == params[..i];
        ghost var before := names;
        var slot;
        ok, slot := LookupOrCreate(params[i]);
        if !ok {
          return;
        }
        DeclareIntern(names, params[i], before);
        assert Names(params[..i + 1]) == Names(params[..i]) + {params[i]} by {
          assert params[..i + 1] == params[..i] + [params[i]];
        }
        i := i + 1;
      }
      assert params[..i] == params;
      ok := true;
    }

    method EmitPrologue(params: seq<string>) returns (ok: bool)
      requires Names(names) == Names(params)
      modifies this
      ensures names == old(names) && loops == old(loops)
      ensures ok ==> Compiled(old(Now()), Now(), Prologue(params, names), 0, NOWHERE)
      ensures Room(old(Now()), |params|, 0, 0) ==> ok
    {
      hide Compiled, Room;
      ghost var a, pro := Now(), Prologue(params, names);
      var i := |params|;
      PieceNothing(a, NOWHERE);
      assert pro[..0] == [];
      while i > 0
        invariant 0 <= i <= |params|
        invariant names == old(names) && loops == old(loops)
        invariant Compiled(a, Now(), pro[..|params| - i], 0, NOWHERE)
        invariant Room(a, |params|, 0, 0) ==> Room(Now(), i, 0, 0)
      {
        ghost var b, k := Now(), |params| - i;
        assert params[i - 1] in names by {
          SameNames(names, params, params[i - 1]);
        }
        var found, slot := Lookup(params[i - 1]);
        if !found {
          return false;
        }
        RoomLess(b, i, 0, 0, 1, 0, 0);
        RoomLess(b, i, 0, 0, 1 + (i - 1), 0, 0);
        ok := EmitPlain(STORE_LOCAL, slot, NOWHERE);
        if !ok {
          return;
        }
        PieceDone(b, Now(), [I(STORE_LOCAL, slot)], 0, NOWHERE, i - 1, 0, 0);
        PieceAppend(a, b, Now(), pro[..k], [I(STORE_LOCAL, slot)], 0, 0, NOWHERE);
        assert pro[..k + 1] == pro[..k] + [I(STORE_LOCAL, slot)];
        i := i - 1;
      }
      assert pro[..|params|] == pro;
      ok := true;
    }

    static lemma {:induction false} SameNames(names: seq<string>, params: seq<string>, x: string)
      requires Names(names) == Names(params) && x in params
      ensures x in names
    {
      assert x in Names(params);
    }

    // ---------- linking ----------

    /** Compile the entry function and everything it reaches behind a boot call, and patch every call.
        `order` lists the functions as they lie in the code. */
    method Link(entry: string) returns (ok: bool, ghost order: seq<string>)
      requires code == [] && consts == [] && stringBytes == 0
      requires entries == map[] && fixups == [] && loops == []
      modifies this
      ensures ok ==> entry in fns && AllReached(fns, entry, order)
      ensures ok ==> Tiled(fns, Boot(fns[entry], entry), order, entries)
      ensures ok ==> Placed(code, consts, entries, 0, TextOf(fns, Boot(fns[entry], entry), order))
      ensures ok ==> |code| == |TextOf(fns, Boot(fns[entry], entry), order)|
      ensures ok ==> forall f :: f in entries <==> Reaches(fns, entry, f)
      ensures ok ==> Storable(Now())
      ensures Linkable(fns, entry) ==> ok
    {
      hide Compiled, Room, GenFn, TextOf, Tiled, TextOk, Reaches, FnOk, Placed, FnSize, ListCost, Affordable, PoolOk;
      order := [];
      if entry !in fns {
        return false, order;
      }
      var fn := fns[entry];
      var site;
      ok, site := EmitBoot(entry);
      if !ok {
        return;
      }
      ghost var a := Now();
      ReachesSelf(fns, entry);
      if Linkable(fns, entry) {
        NextFits(a, fns, entry, [], entry);
      }
      ok := CompileFn(entry);
      if !ok {
        return;
      }
      PieceFixups(a, Now().(entries := a.entries), GenFn(fn, |a.code|), ListCost(fn.body));
      LinkageGrows(a, Now().(entries := a.entries), fns, entry, RawBoot(fn), [], entry, ListCost(fn.body), 0);
      if Linkable(fns, entry) {
        StillFrugal(a, Now().(entries := a.entries), fns, [], entry, |a.code|, entries);
      }
      assert [] + [entry] == [entry];
      LinkageBoot(Now(), fns, entry);
      EntryTiled(fns, RawBoot(fn), entry, entries);
      assert Linkable(fns, entry) ==> Frugal(Now(), fns, [entry]);
      LinkagePatchFrugal(Now(), fns, [entry], site, Instr(code[site].op, entries[entry]));
      BootCalls(fn, entry);
      code := code[site := Instr(code[site].op, entries[entry])];
      NoneResolved(Now());
      ok, order := ResolveFixups(entry, Boot(fn, entry));
      if ok {
        LinkageDone(Now(), fns, entry, Boot(fn, entry), order);
        LinkageLength(Now(), fns, entry, Boot(fn, entry), order);
      }
    }

    static lemma {:induction false} LinkageLength(
      n: Snap, fns: Functions, entry: string, boot: seq<Sym>, order: seq<string>)
      requires Linkage(n, fns, entry, boot, order)
      ensures |n.code| == |TextOf(fns, boot, order)|
    {
      hide TextOf, Tiled, Stretch, Reaches, FnOk;
    }

    static lemma {:induction false} EntryTiled(
      fns: Functions, boot: seq<Sym>, entry: string, entries: map<string, nat>)
      requires entry in fns && Tiled(fns, boot, [entry], entries)
      ensures entry in entries
    {
      hide TextOf;
      assert entry in [entry];
    }

    /** The boot code with a placeholder for the entry's address. */
    method EmitBoot(entry: string) returns (ok: bool, site: nat)
      requires entry in fns
      requires code == [] && consts == [] && stringBytes == 0
      requires entries == map[] && fixups == [] && loops == []
      modifies this
      ensures ok
      ensures site == BootSite(fns[entry])
      ensures Linkage(Now(), fns, entry, RawBoot(fns[entry]), []) && Frugal(Now(), fns, [])
      ensures entries == map[] && loops == [] && Storable(Now())
    {
      ok, site := true, 0;
      if fns[entry].params != [] {
        ok := EmitArgsBoot();
      }
      if ok {
        site := |code|;
        ok := Emit(CALL, 0);
      }
      if ok {
        ok := Emit(HALT, 0);
      }
    }

    /** Push the host's argument list. */
    method EmitArgsBoot() returns (ok: bool)
      requires code == [] && consts == [] && stringBytes == 0
      modifies this
      ensures ok && code == [Instr(CONST, 0), Instr(CALL_SYS, 0)] && consts == [Str(ARGS_TARGET)]
      ensures BYTE_COST * stringBytes <= BOOT_COST && PoolOk(consts, stringBytes)
      ensures entries == old(entries) && fixups == old(fixups) && loops == old(loops)
    {
      var index;
      ok, index := AddString(ARGS_TARGET);
      if ok {
        ok := Emit(CONST, index);
      }
      if ok {
        ok := Emit(CALL_SYS, 0);
      }
    }

    static lemma {:induction false} NoneResolved(n: Snap)
      ensures Resolved(n, 0)
    {
    }

    static lemma {:induction false} LinkableKnows(fns: Functions, entry: string, f: string)
      requires Reaches(fns, entry, f)
      ensures Linkable(fns, entry) ==> f in fns
    {
    }

    static lemma {:induction false} LinkagePatchFrugal(
      n: Snap, fns: Functions, order: seq<string>, ip: nat, i: Instr)
      requires (forall f :: f in order ==> f in fns) && ip < |n.code|
      ensures Frugal(n, fns, order) ==> Frugal(n.(code := n.code[ip := i]), fns, order)
    {
    }

    static lemma {:induction false} FewerLeft(
      fns: Functions, before: map<string, nat>, now: map<string, nat>, f: string)
      requires f in fns && f !in before && now.Keys == before.Keys + {f}
      ensures |fns.Keys - now.Keys| < |fns.Keys - before.Keys|
    {
      assert fns.Keys - before.Keys == (fns.Keys - now.Keys) + {f};
    }

    /** The link loop's invariant with the first `i` fixups patched. */
    static ghost predicate Progress(
      n: Snap, fns: Functions, entry: string, boot: seq<Sym>, order: seq<string>, i: nat)
    {
      && n.loops == [] && entry in order && Storable(n)
      && Linkage(n, fns, entry, boot, order)
      && i <= |n.fixups| && Resolved(n, i)
      && (Linkable(fns, entry) ==> Frugal(n, fns, order))
    }

    /** A call target met for the first time. */
    method CompileTarget(f: string, entry: string, ghost boot: seq<Sym>, ghost order: seq<string>, ghost k: nat)
      returns (ok: bool, ghost longer: seq<string>)
      requires f in fns && f !in entries && Reaches(fns, entry, f)
      requires Progress(Now(), fns, entry, boot, order, k)
      modifies this
      ensures ok ==> entries.Keys == old(entries).Keys + {f} && IsPrefix(old(fixups), fixups)
      ensures ok ==> Progress(Now(), fns, entry, boot, longer, k)
      ensures Linkable(fns, entry) ==> ok
    {
      hide Compiled, Room, GenFn, TextOf, TextOk, Reaches, FnOk, Linkable, Resolved, Frugal, ListCost, FnFits,
        PoolOk;
      ghost var a := Now();
      longer := order + [f];
      if Linkable(fns, entry) {
        assert f !in order;
        NextFits(a, fns, entry, order, f);
      }
      ok := CompileFn(f);
      if !ok {
        return;
      }
      ghost var n := Now().(entries := a.entries);
      ghost var used := ListCost(fns[f].body);
      PieceFixups(a, n, GenFn(fns[f], |a.code|), used);
      LinkageGrows(a, n, fns, entry, boot, order, f, used, k);
      if Linkable(fns, entry) {
        StillFrugal(a, n, fns, order, f, |a.code|, entries);
      }
      assert Now() == n.(entries := n.entries[f := |a.code|]);
    }

    static lemma {:induction false} PieceFixups(a: Snap, n: Snap, syms: seq<Sym>, used: nat)
      requires Compiled(a, n, syms, used, NOWHERE)
      ensures IsPrefix(a.fixups, n.fixups) && n.entries == a.entries && |n.loops| == |a.loops|
      ensures Storable(a) ==> Storable(n)
    {
      hide SitesOk, Stretch, Storable;
    }

    static lemma {:induction false} BootCalls(fn: FnDef, entry: string)
      ensures forall g :: CallOf(g) in Boot(fn, entry) ==> g == entry
    {
      forall g | CallOf(g) in Boot(fn, entry)
        ensures g == entry
      {
        InAppend(BootArgs(fn), [CallOf(entry), I(HALT, 0)], CallOf(g));
      }
    }

    /** Walk the fixup list, which grows while functions are compiled, and patch every call. */
    method ResolveFixups(entry: string, ghost boot: seq<Sym>) returns (ok: bool, ghost order: seq<string>)
      requires forall g :: CallOf(g) in boot ==> g == entry
      requires Progress(Now(), fns, entry, boot, [entry], 0)
      modifies this
      ensures ok ==> Progress(Now(), fns, entry, boot, order, |fixups|)
      ensures Linkable(fns, entry) ==> ok
    {
      hide Progress, Linkable;
      order := [entry];
      var i := 0;
      while i < |fixups|
        invariant 0 <= i <= |fixups|
        invariant Progress(Now(), fns, entry, boot, order, i)
        decreases |fns.Keys - entries.Keys|, |fixups| - i
      {
        ok, order := ResolveFixup(i, entry, boot, order);
        if !ok {
          return;
        }
        i := i + 1;
      }
      ok := true;
    }

    /** Compile the target of a fixup if that has not happened yet, and patch the call. */
    method ResolveFixup(i: nat, entry: string, ghost boot: seq<Sym>, ghost order: seq<string>)
      returns (ok: bool, ghost longer: seq<string>)
      requires i < |fixups| && Progress(Now(), fns, entry, boot, order, i)
      requires forall g :: CallOf(g) in boot ==> g == entry
      modifies this
      ensures ok ==> i < |fixups| && Progress(Now(), fns, entry, boot, longer, i + 1)
      ensures ok ==>
        || |fns.Keys - entries.Keys| < |fns.Keys - old(entries).Keys|
        || (entries == old(entries) && |fixups| == |old(fixups)|)
      ensures Linkable(fns, entry) ==> ok
    {
      hide Progress, Linkable, Reaches, Resolved, Frugal;
      var x := fixups[i];
      longer := order;
      ProgressReached(Now(), fns, entry, boot, order, i);
      if x.target !in fns {
        LinkableKnows(fns, entry, x.target);
        return false, order;
      }
      if x.target !in entries {
        ghost var before, list := entries, fixups;
        ok, longer := CompileTarget(x.target, entry, boot, order, i);
        if !ok {
          return;
        }
        FewerLeft(fns, before, entries, x.target);
        assert |list| <= |fixups| && fixups[..|list|][i] == x;
      }
      PatchCall(i, entry, boot, longer);
      ok := true;
    }

    static lemma {:induction false} ProgressReached(
      n: Snap, fns: Functions, entry: string, boot: seq<Sym>, order: seq<string>, i: nat)
      requires Progress(n, fns, entry, boot, order, i) && i < |n.fixups|
      requires forall g :: CallOf(g) in boot ==> g == entry
      ensures Reaches(fns, entry, n.fixups[i].target)
    {
      hide Linkage, Reaches, Resolved, Frugal, Linkable;
      FixupReached(n, fns, entry, boot, order, n.fixups[i]);
    }

    /** Set a call's operand.  Its site is always inside the code. */
    method PatchCall(i: nat, ghost entry: string, ghost boot: seq<Sym>, ghost order: seq<string>)
      requires i < |fixups| && fixups[i].target in entries
      requires Progress(Now(), fns, entry, boot, order, i)
      modifies this`code
      ensures Progress(Now(), fns, entry, boot, order, i + 1)
    {
      hide TextOf, Tiled, TextOk, Reaches, FnOk, Linkable, Resolved, Frugal;
      var x := fixups[i];
      LinkagePatch(Now(), fns, entry, boot, order, i);
      LinkagePatchFrugal(Now(), fns, order, x.ip, Instr(code[x.ip].op, entries[x.target]));
      code := code[x.ip := Instr(code[x.ip].op, entries[x.target])];
    }
  }
}
