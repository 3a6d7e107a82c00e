/** No stale local comes back into view in compiled code: on every run of a linked program a store skips a slot
    only at the start of a prologue, whose other stores fill what it skipped. */
module Gaps {
  import opened Values
  import opened Bytecode
  import opened Source
  import opened Layout
  import opened Machine
  import opened Steps
  import opened Entry
  import opened Linking
  import opened Adequacy
  import opened Levels

  // ---------- where a run stands ----------

  function LevelsOf(g: Image, f: string): seq<nat>
    requires f in g.entries && f in g.fns
  {
    FnLevels(g.fns[f], g.entries[f])
  }

  /** At an instruction of `f`'s body, with the locals its level asks for. */
  predicate AtLevel(g: Image, f: string, ip: nat, base: nat, count: nat)
    requires f in g.entries && f in g.fns
  {
    ip < |LevelsOf(g, f)| && base + LevelsOf(g, f)[ip] <= count
  }

  /** At the first store of `f`'s prologue, right behind the CALL. */
  predicate Opening(g: Image, f: string, s: State)
    requires f in g.entries && f in g.fns
  {
    && g.fns[f].params != [] && s.ip == g.entries[f] && s.frames != [] && s.localsCount == s.LocalsBase()
    && s.frames[|s.frames| - 1].frameBase + |g.fns[f].params| == |s.stack|
  }

  /** At a later store of the prologue. */
  predicate Filling(g: Image, f: string, s: State)
    requires f in g.entries && f in g.fns
  {
    var n := |g.fns[f].params|;
    g.entries[f] < s.ip < g.entries[f] + n && s.LocalsBase() + n <= s.localsCount
  }

  predicate InFn(g: Image, f: string, s: State)
    requires f in g.entries && f in g.fns
  {
    Opening(g, f, s) || Filling(g, f, s) || AtLevel(g, f, s.ip, s.LocalsBase(), s.localsCount)
  }

  predicate Known(g: Image, fs: seq<string>) {
    forall i :: 0 <= i < |fs| ==> fs[i] in g.entries && fs[i] in g.fns
  }

  /** Frame `i` returns to the boot code, or into the body of the function below it. */
  predicate Waiting(g: Image, site: nat, fs: seq<string>, frames: seq<Frame>, i: nat)
    requires i < |frames| == |fs| && Known(g, fs)
  {
    if i == 0 then frames[i].returnIp == site + 1
    else AtLevel(g, fs[i - 1], frames[i].returnIp, frames[i - 1].localsBase, frames[i].localsBase)
  }

  /** Every frame belongs to a linked function, `fs` from the bottom up, and the machine stands in the boot code or
      in the topmost one. */
  predicate Standing(g: Image, site: nat, fs: seq<string>, s: State) {
    && |fs| == |s.frames| && Known(g, fs)
    && (forall i :: 0 <= i < |fs| ==> Waiting(g, site, fs, s.frames, i))
    && if fs == [] then s.ip <= site + 1 else InFn(g, fs[|fs| - 1], s)
  }

  predicate Tracked(g: Image, site: nat, fs: seq<string>, s: State) {
    s.WithinLimits() && (s.Live() ==> Standing(g, site, fs, s))
  }

  // ---------- single steps ----------

  predicate Straight(op: Opcode) {
    op !in {JUMP, JUMP_IF_FALSE, STORE_LOCAL, CALL, RET, RETURN}
  }

  /** Same frames and as many locals. */
  predicate Level(s: State, t: State) {
    t.frames == s.frames && t.localsCount == s.localsCount
  }

  /** On to the next instruction, if the machine is still running. */
  predicate GoesOn(s: State, t: State) {
    t.Live() ==> t.ip == s.ip + 1 && Level(s, t)
  }

  lemma {:induction false} PushGoesOn(s: State, v: Value)
    requires s.Live()
    ensures GoesOn(s, Next(Push(s, v)))
  {
  }

  lemma {:induction false} DataGoesOn(s: State, op: Opcode, arg: int)
    requires s.WithinLimits() && s.Live()
    ensures GoesOn(s, StepLoad(s, arg)) && GoesOn(s, StepSys(s, arg))
    ensures op == ADD_INT || op == EQ_INT || op == EQ || op == STR_CONCAT ==> GoesOn(s, StepBinary(s, op))
  {
    hide Operate;
  }

  lemma {:induction false} StraightStep(p: Program, s: State)
    requires s.WithinLimits() && s.Live() && s.ip < |p.code| && Straight(p.code[s.ip].op)
    ensures GoesOn(s, Step(p, s))
  {
    hide StepLoad, StepSys, StepBinary, Push;
    var i, r := p.code[s.ip], s.(status := Running);
    DataGoesOn(r, i.op, i.arg);
    PushGoesOn(r, Int(i.arg));
    PushGoesOn(r, Bool(i.arg != 0));
    if 0 <= i.arg < |p.consts| {
      PushGoesOn(r, p.consts[i.arg]);
    }
  }

  lemma {:induction false} JumpStep(p: Program, s: State)
    requires s.WithinLimits() && s.Live() && s.ip < |p.code|
    requires p.code[s.ip].op == JUMP || p.code[s.ip].op == JUMP_IF_FALSE
    ensures var t := Step(p, s);
      t.Live() ==> Level(s, t) && (t.ip == p.code[s.ip].arg || (p.code[s.ip].op == JUMP_IF_FALSE && t.ip == s.ip + 1))
  {
  }

  lemma {:induction false} SlotStep(p: Program, s: State)
    requires s.WithinLimits() && s.Live() && s.ip < |p.code| && p.code[s.ip].op == STORE_LOCAL
    ensures var t, arg := Step(p, s), p.code[s.ip].arg;
      t.Live() ==>
        && t.frames == s.frames && t.ip == s.ip + 1 && arg >= 0
        && t.localsCount == Max(s.localsCount, s.LocalsBase() + arg + 1)
  {
  }

  lemma {:induction false} CallingStep(p: Program, s: State)
    requires s.WithinLimits() && s.Live() && s.ip < |p.code| && p.code[s.ip].op == CALL
    ensures var t, target := Step(p, s), p.code[s.ip].arg;
      t.Live() ==>
        && 0 <= target < |p.code| && t.ip == target && t.localsCount == s.localsCount && t.stack == s.stack
        && StoreRun(p.code, target) <= |s.stack|
        && t.frames == s.frames + [Frame(s.ip + 1, |s.stack| - StoreRun(p.code, target), s.localsCount)]
  {
    hide StoreRun, LayoutOk;
  }

  lemma {:induction false} ReturningStep(p: Program, s: State)
    requires s.WithinLimits() && s.Live() && s.ip < |p.code| && (p.code[s.ip].op == RET || p.code[s.ip].op == RETURN)
    ensures var t := Step(p, s);
      t.Live() ==>
        && s.frames != []
        && var f := s.frames[|s.frames| - 1];
           t.frames == s.frames[..|s.frames| - 1] && t.ip == f.returnIp && t.localsCount == f.localsBase
  {
  }

  // ---------- the run stays on its levels ----------

  lemma {:induction false} BodyAt(g: Image, f: string)
    requires f in g.entries && FnPlaced(g, f)
    ensures var fn, at := g.fns[f], g.entries[f];
      At(g, at + |fn.params|, BodyCode(fn, at)) && |BodyCode(fn, at)| == FnSize(fn) - |fn.params|
  {
    hide GenList, StmtsOk, ListDidReturn, Placed, ListSize, Prologue;
    FnParts(g, f);
    var fn, at := g.fns[f], g.entries[f];
    var body, end := GenList(fn.body, at + |fn.params|, fn.params, 0, 0),
      if ListDidReturn(fn.body) then [] else [I(RETURN, 0)];
    PlacedSplit(g.p.code, g.p.consts, g.entries, at + |fn.params|, body, end);
    PlacedNothing(g, at + |fn.params|, body);
  }

  lemma {:induction false} PlacedNothing(g: Image, at: nat, syms: seq<Sym>)
    requires At(g, at, syms)
    ensures At(g, at + |syms|, [])
  {
  }

  /** What stands at a live place of a body. */
  lemma {:induction false} LiveSym(g: Image, f: string, ip: nat, base: nat, count: nat) returns (sym: Sym)
    requires f in g.entries && FnPlaced(g, f) && AtLevel(g, f, ip, base, count) && count <= LOCALS_CAPACITY
    ensures ip + 1 < |LevelsOf(g, f)| && LevelsOf(g, f)[ip] < DEAD && Flows(sym, ip, LevelsOf(g, f))
    ensures ip < |g.p.code| && Realizes(g.p.code[ip], sym, g.p.consts, g.entries)
  {
    hide FnLevels, BodyCode, Flows, GenFn, FnOk;
    var fn, at := g.fns[f], g.entries[f];
    FnFlows(fn, g.fns, at);
    BodyAt(g, f);
    var start, body := at + |fn.params|, BodyCode(fn, at);
    assert start <= ip < start + |body|;
    sym := body[ip - start];
    assert Realizes(g.p.code[start + (ip - start)], body[ip - start], g.p.consts, g.entries);
  }

  /** A step within the body keeps to the levels: same function, same frames. */
  lemma {:induction false} BodyStep(g: Image, f: string, s: State)
    requires f in g.entries && FnPlaced(g, f) && s.WithinLimits() && s.Live()
    requires AtLevel(g, f, s.ip, s.LocalsBase(), s.localsCount)
    ensures s.ip < |g.p.code|
    ensures var op, t := g.p.code[s.ip].op, Step(g.p, s);
      op !in {CALL, RET, RETURN} && t.Live() ==>
        t.frames == s.frames && AtLevel(g, f, t.ip, t.LocalsBase(), t.localsCount)
  {
    hide FnLevels, FnPlaced, Step, Realizes;
    var sym := LiveSym(g, f, s.ip, s.LocalsBase(), s.localsCount);
    var i := g.p.code[s.ip];
    if sym.Plain? {
      assert sym.i == i by { PlainIs(g, i, sym); }
      if i.op == JUMP || i.op == JUMP_IF_FALSE {
        JumpStep(g.p, s);
      } else if i.op == STORE_LOCAL {
        SlotStep(g.p, s);
      } else if Straight(i.op) {
        StraightStep(g.p, s);
      }
    } else {
      assert i.op == CONST || i.op == CALL by { OtherIs(g, i, sym); }
      if i.op == CONST {
        StraightStep(g.p, s);
      }
    }
  }

  lemma {:induction false} PlainIs(g: Image, i: Instr, sym: Sym)
    requires Realizes(i, sym, g.p.consts, g.entries) && sym.Plain?
    ensures sym.i == i
  {
  }

  lemma {:induction false} OtherIs(g: Image, i: Instr, sym: Sym)
    requires Realizes(i, sym, g.p.consts, g.entries) && !sym.Plain?
    ensures sym.ConstOf? ==> i.op == CONST
    ensures sym.CallOf? ==> sym.f in g.entries && i == Instr(CALL, g.entries[sym.f])
  {
  }

  /** A call inside a body: a known function, and the way back is on its level. */
  lemma {:induction false} BodyCall(g: Image, f: string, s: State) returns (h: string)
    requires f in g.entries && FnPlaced(g, f) && s.WithinLimits() && s.Live()
    requires AtLevel(g, f, s.ip, s.LocalsBase(), s.localsCount)
    requires s.ip < |g.p.code| && g.p.code[s.ip].op == CALL
    ensures h in g.entries && g.p.code[s.ip].arg == g.entries[h]
    ensures AtLevel(g, f, s.ip + 1, s.LocalsBase(), s.localsCount)
  {
    hide FnLevels, FnPlaced, Realizes;
    var sym := LiveSym(g, f, s.ip, s.LocalsBase(), s.localsCount);
    var i := g.p.code[s.ip];
    if sym.Plain? {
      PlainIs(g, i, sym);
      assert false;
    } else {
      OtherIs(g, i, sym);
      h := sym.f;
    }
  }

  /** Behind a call the callee stands at its prologue, or in its body if it has none. */
  lemma {:induction false} Called(g: Image, h: string, s: State)
    requires Linked(g) && h in g.entries && s.WithinLimits() && s.Live()
    requires s.ip < |g.p.code| && g.p.code[s.ip] == Instr(CALL, g.entries[h])
    ensures h in g.fns
    ensures var t := Step(g.p, s);
      t.Live() ==>
        && |t.frames| == |s.frames| + 1 && t.frames[..|s.frames|] == s.frames
        && t.frames[|s.frames|].returnIp == s.ip + 1 && t.frames[|s.frames|].localsBase == s.localsCount
        && InFn(g, h, t)
  {
    hide FnLevels, Step, StoreRun, GenFn, LayoutOk;
    assert FnPlaced(g, h);
    CallingStep(g.p, s);
    ArityAgreement(g, h);
    FnFlows(g.fns[h], g.fns, g.entries[h]);
  }

  /** Inside a prologue. */
  lemma {:induction false} PrologueStep(g: Image, f: string, s: State)
    requires f in g.entries && FnPlaced(g, f) && s.WithinLimits() && s.Live()
    requires Opening(g, f, s) || Filling(g, f, s)
    ensures s.ip < |g.p.code| && g.p.code[s.ip] == Instr(STORE_LOCAL, |g.fns[f].params| - 1 - (s.ip - g.entries[f]))
    ensures Step(g.p, s).Live() ==> Step(g.p, s).frames == s.frames && InFn(g, f, Step(g.p, s))
  {
    hide FnLevels, Step, GenFn, FnOk;
    EntryCode(g, f);
    SlotStep(g.p, s);
    FnFlows(g.fns[f], g.fns, g.entries[f]);
  }

  lemma {:induction false} SameFrames(g: Image, site: nat, fs: seq<string>, s: State, t: State)
    requires Standing(g, site, fs, s) && t.frames == s.frames && fs != [] && InFn(g, fs[|fs| - 1], t)
    ensures Standing(g, site, fs, t)
  {
    hide InFn, Waiting;
  }

  lemma {:induction false} MoreFrames(g: Image, site: nat, fs: seq<string>, s: State, t: State, h: string)
    requires Standing(g, site, fs, s) && h in g.entries && h in g.fns
    requires |t.frames| == |s.frames| + 1 && t.frames[..|s.frames|] == s.frames && InFn(g, h, t)
    requires if fs == [] then t.frames[0].returnIp == site + 1
      else AtLevel(g, fs[|fs| - 1], t.frames[|fs|].returnIp, s.LocalsBase(), t.frames[|fs|].localsBase)
    ensures Standing(g, site, fs + [h], t)
  {
    hide InFn, AtLevel;
    var more := fs + [h];
    forall i | 0 <= i < |more|
      ensures Waiting(g, site, more, t.frames, i)
    {
      assert i > 0 ==> t.frames[i - 1] == t.frames[..|s.frames|][i - 1];
      if i < |fs| {
        assert Waiting(g, site, fs, s.frames, i);
        assert t.frames[i] == t.frames[..|s.frames|][i];
      }
    }
  }

  lemma {:induction false} FewerFrames(g: Image, site: nat, fs: seq<string>, s: State, t: State)
    requires Standing(g, site, fs, s) && s.frames != []
    requires var f := s.frames[|s.frames| - 1];
      t.frames == s.frames[..|s.frames| - 1] && t.ip == f.returnIp && t.localsCount == f.localsBase
    ensures Standing(g, site, fs[..|fs| - 1], t)
  {
    hide AtLevel;
    var k := |fs| - 1;
    forall i | 0 <= i < k
      ensures Waiting(g, site, fs[..k], t.frames, i)
    {
      assert Waiting(g, site, fs, s.frames, i);
    }
    assert Waiting(g, site, fs, s.frames, k);
  }

  /** In the boot code. */
  lemma {:induction false} BootMoves(g: Image, entry: string, s: State) returns (fs: seq<string>)
    requires Bootable(g, entry) && s.WithinLimits() && s.Live() && Standing(g, BootSite(g.fns[entry]), [], s)
    ensures Step(g.p, s).Live() ==> Standing(g, BootSite(g.fns[entry]), fs, Step(g.p, s))
  {
    hide Step, InFn, FnPlaced, Boot, Placed, AtLevel, Realizes;
    var site := BootSite(g.fns[entry]);
    BootCode(g, g.fns[entry], entry);
    fs := [];
    if s.ip == site {
      Called(g, entry, s);
      if Step(g.p, s).Live() {
        MoreFrames(g, site, [], s, Step(g.p, s), entry);
        assert [] + [entry] == [entry];
      }
      fs := [entry];
    } else if s.ip == site + 1 {
      HaltsHere(g.p, s);
    } else {
      BootIs(g, entry, s.ip);
      StraightStep(g.p, s);
    }
  }

  lemma {:induction false} BootIs(g: Image, entry: string, ip: nat)
    requires Bootable(g, entry) && ip < BootSite(g.fns[entry])
    ensures ip < |g.p.code| && Straight(g.p.code[ip].op)
  {
    hide FnPlaced, Placed, Boot;
    BootCode(g, g.fns[entry], entry);
  }

  lemma {:induction false} HaltsHere(p: Program, s: State)
    requires s.WithinLimits() && s.Live() && s.ip < |p.code| && p.code[s.ip].op == HALT
    ensures !Step(p, s).Live()
  {
  }

  /** In a function. */
  lemma {:induction false} FnMoves(g: Image, site: nat, fs: seq<string>, s: State) returns (fs': seq<string>)
    requires Linked(g) && fs != [] && s.WithinLimits() && s.Live() && Standing(g, site, fs, s)
    ensures Step(g.p, s).Live() ==> Standing(g, site, fs', Step(g.p, s))
  {
    hide Step, Waiting, FnPlaced, AtLevel, Opening, Filling;
    var f, t := fs[|fs| - 1], Step(g.p, s);
    assert FnPlaced(g, f);
    fs' := fs;
    if Opening(g, f, s) || Filling(g, f, s) {
      PrologueStep(g, f, s);
      if t.Live() {
        SameFrames(g, site, fs, s, t);
      }
    } else {
      BodyStep(g, f, s);
      var op := g.p.code[s.ip].op;
      if op == CALL {
        var h := BodyCall(g, f, s);
        CallIs(g, f, h, s);
        Called(g, h, s);
        fs' := fs + [h];
        if t.Live() {
          MoreFrames(g, site, fs, s, t, h);
        }
      } else if op == RET || op == RETURN {
        ReturningStep(g.p, s);
        fs' := fs[..|fs| - 1];
        if t.Live() {
          FewerFrames(g, site, fs, s, t);
        }
      } else if t.Live() {
        SameFrames(g, site, fs, s, t);
      }
    }
  }

  lemma {:induction false} CallIs(g: Image, f: string, h: string, s: State)
    requires h in g.entries && s.ip < |g.p.code| && g.p.code[s.ip].op == CALL && g.p.code[s.ip].arg == g.entries[h]
    ensures g.p.code[s.ip] == Instr(CALL, g.entries[h])
  {
  }

  /** Every run of a linked program stays tracked. */
  lemma {:induction false} RunTracked(g: Image, entry: string, s: State, n: nat) returns (fs: seq<string>)
    requires Bootable(g, entry) && Fresh(s)
    ensures Tracked(g, BootSite(g.fns[entry]), fs, Run(g.p, s, n))
    decreases n
  {
    hide Run, Step, Bootable, Standing;
    if n == 0 {
      Zero(g.p, s);
      fs := [];
      FreshStands(g, entry, s);
    } else {
      fs := RunTracked(g, entry, s, n - 1);
      var t := Run(g.p, s, n - 1);
      One(g.p, t);
      Chain(g.p, s, n - 1, 1);
      if !t.Live() {
        Stopped(g.p, t);
      } else {
        fs := TrackedStep(g, entry, fs, t);
      }
    }
  }

  lemma {:induction false} Stopped(p: Program, s: State)
    requires s.WithinLimits() && !s.Live()
    ensures Step(p, s) == s
  {
  }

  lemma {:induction false} FreshStands(g: Image, entry: string, s: State)
    requires Bootable(g, entry) && Fresh(s)
    ensures Standing(g, BootSite(g.fns[entry]), [], s)
  {
  }

  lemma {:induction false} TrackedStep(g: Image, entry: string, fs: seq<string>, s: State) returns (fs': seq<string>)
    requires Bootable(g, entry) && s.WithinLimits() && s.Live() && Standing(g, BootSite(g.fns[entry]), fs, s)
    ensures Step(g.p, s).Live() ==> Standing(g, BootSite(g.fns[entry]), fs', Step(g.p, s))
  {
    hide Step, Standing, At, FnPlaced;
    if fs == [] {
      fs' := BootMoves(g, entry, s);
    } else {
      fs' := FnMoves(g, BootSite(g.fns[entry]), fs, s);
    }
  }

  // ---------- no gaps ----------

  /** The store about to be run skips a slot. */
  predicate Gap(p: Program, s: State) {
    s.Live() && s.ip < |p.code| && p.code[s.ip].op == STORE_LOCAL && s.LocalsBase() + p.code[s.ip].arg > s.localsCount
  }

  /** A store that skips a slot is the first of a prologue of two or more, with the arguments on the stack. */
  lemma {:induction false} NoGaps(g: Image, entry: string, s: State, n: nat) returns (f: string)
    requires Bootable(g, entry) && Fresh(s)
    ensures var t := Run(g.p, s, n);
      Gap(g.p, t) ==> f in g.entries && f in g.fns && |g.fns[f].params| >= 2 && Opening(g, f, t)
  {
    hide Run, Step, At, AtLevel, FnPlaced, Waiting;
    var t := Run(g.p, s, n);
    var fs := RunTracked(g, entry, s, n);
    f := "";
    if Gap(g.p, t) {
      if fs == [] {
        BootStores(g, entry, t);
        assert false;
      } else {
        f := fs[|fs| - 1];
        assert FnPlaced(g, f);
        StoreInFn(g, f, t);
      }
    }
  }

  lemma {:induction false} BootStores(g: Image, entry: string, s: State)
    requires Bootable(g, entry) && s.ip <= BootSite(g.fns[entry]) + 1
    ensures s.ip < |g.p.code| && g.p.code[s.ip].op != STORE_LOCAL
  {
    hide FnPlaced, Placed, Boot, Realizes;
    BootCode(g, g.fns[entry], entry);
    if s.ip < BootSite(g.fns[entry]) {
      BootIs(g, entry, s.ip);
    }
  }

  /** Within a function. */
  lemma {:induction false} StoreInFn(g: Image, f: string, s: State)
    requires f in g.entries && f in g.fns && FnPlaced(g, f) && s.WithinLimits() && InFn(g, f, s) && Gap(g.p, s)
    ensures Opening(g, f, s) && |g.fns[f].params| >= 2
  {
    hide FnLevels, FnPlaced, Realizes;
    if Opening(g, f, s) || Filling(g, f, s) {
      PrologueStep(g, f, s);
    } else {
      var sym := LiveSym(g, f, s.ip, s.LocalsBase(), s.localsCount);
      if sym.Plain? {
        PlainIs(g, g.p.code[s.ip], sym);
      } else {
        OtherIs(g, g.p.code[s.ip], sym);
      }
      assert false;
    }
  }
}
