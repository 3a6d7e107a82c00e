/** What a stretch of emitted code owes.  While code is being emitted a jump out of a loop or a call to an
    uncompiled function is a placeholder; the site is recorded, and patching the recorded sites turns the
    stretch into the directly emitted code of Layout.dfy. */
module Emission {
  import opened Values
  import opened Bytecode
  import opened Source
  import opened Layout
  import A = Aibc1

  const MAX_FIXUPS := 2048
  const MAX_LOCALS := 1024
  const MAX_LOOP_DEPTH := 128
  const MAX_LOOP_FIXUPS := 1024

  datatype Fixup = Fixup(ip: nat, target: string)

  datatype LoopFrame = LoopFrame(startIp: nat, breaks: seq<nat>, continues: seq<nat>)

  /** The compiler's output and pending work at one moment. */
  datatype Snap = Snap(
    code: seq<Instr>,
    consts: seq<Value>,
    stringBytes: nat,
    entries: map<string, nat>,
    fixups: seq<Fixup>,
    loops: seq<LoopFrame>)
  {
    function Breaks(): seq<nat> {
      if loops == [] then [] else loops[|loops| - 1].breaks
    }

    function Continues(): seq<nat> {
      if loops == [] then [] else loops[|loops| - 1].continues
    }
  }

  /** Where the innermost loop's jumps will go. */
  datatype Targets = Targets(brk: nat, cont: nat)

  predicate IsPrefix<T(==)>(a: seq<T>, b: seq<T>) {
    |a| <= |b| && b[..|a|] == a
  }

  /** Instruction `i` is `sym`, or a recorded placeholder for it. */
  predicate Owed(n: Snap, i: nat, sym: Sym, t: Targets)
    requires i < |n.code|
  {
    match sym
    case ConstOf(_) => Realizes(n.code[i], sym, n.consts, n.entries)
    case CallOf(f) => Realizes(n.code[i], sym, n.consts, n.entries) || (n.code[i].op == CALL && Fixup(i, f) in n.fixups)
    case Plain(j) =>
      || n.code[i] == j
      || (n.code[i].op == JUMP && j == Instr(JUMP, t.brk) && i in n.Breaks())
      || (n.code[i].op == JUMP && j == Instr(JUMP, t.cont) && i in n.Continues())
  }

  /** Every newly recorded site is a placeholder of the right kind inside the new stretch. */
  ghost predicate SitesOk(a: Snap, n: Snap, syms: seq<Sym>, t: Targets)
    requires IsPrefix(a.fixups, n.fixups) && IsPrefix(a.Breaks(), n.Breaks()) && IsPrefix(a.Continues(), n.Continues())
  {
    && NewFixups(a.fixups, n.fixups, |a.code|, syms)
    && NewSites(a.Breaks(), n.Breaks(), |a.code|, syms, I(JUMP, t.brk))
    && NewSites(a.Continues(), n.Continues(), |a.code|, syms, I(JUMP, t.cont))
  }

  /** The sites `n` has beyond `a` are places of `sym`. */
  ghost predicate NewSites(a: seq<nat>, n: seq<nat>, at: nat, syms: seq<Sym>, sym: Sym)
    requires IsPrefix(a, n)
  {
    forall b :: b in n[|a|..] ==> SiteIs(at, syms, b, sym)
  }

  ghost predicate NewFixups(a: seq<Fixup>, n: seq<Fixup>, at: nat, syms: seq<Sym>)
    requires IsPrefix(a, n)
  {
    forall x :: x in n[|a|..] ==> SiteIs(at, syms, x.ip, CallOf(x.target))
  }

  /** `ip` is the place of a `sym` in the stretch `syms` laid at `at`. */
  predicate SiteIs(at: nat, syms: seq<Sym>, ip: nat, sym: Sym) {
    at <= ip < at + |syms| && syms[ip - at] == sym
  }

  /** Going from `a` to `n` appended code for `syms`, and nothing else but pool entries and sites. */
  ghost predicate Emitted(a: Snap, n: Snap, syms: seq<Sym>, t: Targets) {
    Framed(a, n, syms, t) && Stretch(n, |a.code|, syms, t)
  }

  /** The code from `at` on is `syms`, up to placeholders. */
  ghost predicate Stretch(n: Snap, at: nat, syms: seq<Sym>, t: Targets) {
    && at + |syms| <= |n.code|
    && forall k {:trigger syms[k]} :: 0 <= k < |syms| ==> Owed(n, at + k, syms[k], t)
  }

  ghost predicate Framed(a: Snap, n: Snap, syms: seq<Sym>, t: Targets) {
    && |n.code| == |a.code| + |syms|
    && n.code[..|a.code|] == a.code
    && IsPrefix(a.consts, n.consts)
    && IsPrefix(a.fixups, n.fixups)
    && n.entries == a.entries
    && |n.loops| == |a.loops|
    && (a.loops != [] ==> n.loops[..|a.loops| - 1] == a.loops[..|a.loops| - 1])
    && IsPrefix(a.Breaks(), n.Breaks())
    && IsPrefix(a.Continues(), n.Continues())
    && SitesOk(a, n, syms, t)
    && Spent(a, n, |syms|)
  }

  /** The innermost loop got no more than `k` sites of either kind. */
  predicate Spent(a: Snap, n: Snap, k: nat) {
    && |n.Breaks()| <= |a.Breaks()| + k
    && |n.Continues()| <= |a.Continues()| + k
  }

  lemma {:induction false} EmittedNothing(a: Snap, t: Targets)
    ensures Emitted(a, a, [], t)
  {
  }

  lemma {:induction false} InSuffix<T>(a: seq<T>, b: seq<T>, c: seq<T>, x: T)
    requires IsPrefix(a, b) && IsPrefix(b, c) && x in c[|a|..]
    ensures x in b[|a|..] || x in c[|b|..]
  {
    var i :| 0 <= i < |c[|a|..]| && c[|a|..][i] == x;
    if |a| + i < |b| {
      assert b[|a| + i] == c[..|b|][|a| + i];
      assert b[|a|..][i] == x;
    } else {
      assert c[|b|..][|a| + i - |b|] == x;
    }
  }

  lemma {:induction false} PrefixTrans<T>(a: seq<T>, b: seq<T>, c: seq<T>)
    requires IsPrefix(a, b) && IsPrefix(b, c)
    ensures IsPrefix(a, c)
  {
    assert c[..|a|] == c[..|b|][..|a|];
  }

  lemma {:induction false} InPrefix<T>(a: seq<T>, b: seq<T>, x: T)
    requires IsPrefix(a, b) && x in a
    ensures x in b
  {
    var i :| 0 <= i < |a| && a[i] == x;
    assert b[..|a|][i] == b[i];
  }

  lemma {:induction false} EmittedAppend(a: Snap, b: Snap, c: Snap, x: seq<Sym>, y: seq<Sym>, t: Targets)
    requires Emitted(a, b, x, t) && Emitted(b, c, y, t)
    ensures Emitted(a, c, x + y, t)
  {
    var xy := x + y;
    PrefixTrans(a.code, b.code, c.code);
    PrefixTrans(a.consts, b.consts, c.consts);
    PrefixTrans(a.fixups, b.fixups, c.fixups);
    PrefixTrans(a.Breaks(), b.Breaks(), c.Breaks());
    PrefixTrans(a.Continues(), b.Continues(), c.Continues());
    AppendSites(a, b, c, x, y, t);
    forall k | 0 <= k < |xy|
      ensures Owed(c, |a.code| + k, xy[k], t)
    {
      if k < |x| {
        assert xy[k] == x[k];
        OwedLater(b, c, |a.code| + k, x[k], t);
      } else {
        assert xy[k] == y[k - |x|];
        assert Owed(c, |b.code| + (k - |x|), y[k - |x|], t);
      }
    }
  }

  lemma {:induction false} AppendSites(a: Snap, b: Snap, c: Snap, x: seq<Sym>, y: seq<Sym>, t: Targets)
    requires Emitted(a, b, x, t) && Emitted(b, c, y, t)
    requires IsPrefix(a.fixups, c.fixups) && IsPrefix(a.Breaks(), c.Breaks()) && IsPrefix(a.Continues(), c.Continues())
    ensures SitesOk(a, c, x + y, t)
  {
    hide Stretch, Owed, Spent, IsPrefix, Snap.Breaks, Snap.Continues, NewSites, NewFixups;
    FixupsAppend(a.fixups, b.fixups, c.fixups, |a.code|, x, y);
    NewSitesAppend(a.Breaks(), b.Breaks(), c.Breaks(), |a.code|, x, y, I(JUMP, t.brk));
    NewSitesAppend(a.Continues(), b.Continues(), c.Continues(), |a.code|, x, y, I(JUMP, t.cont));
  }

  lemma {:induction false} NewSitesAppend(
    a: seq<nat>, b: seq<nat>, c: seq<nat>, at: nat, x: seq<Sym>, y: seq<Sym>, sym: Sym)
    requires IsPrefix(a, b) && IsPrefix(b, c) && IsPrefix(a, c)
    requires NewSites(a, b, at, x, sym) && NewSites(b, c, at + |x|, y, sym)
    ensures NewSites(a, c, at, x + y, sym)
  {
    forall s | s in c[|a|..]
      ensures SiteIs(at, x + y, s, sym)
    {
      InSuffix(a, b, c, s);
      SiteAppend(at, x, y, s, sym);
    }
  }

  lemma {:induction false} FixupsAppend(
    a: seq<Fixup>, b: seq<Fixup>, c: seq<Fixup>, at: nat, x: seq<Sym>, y: seq<Sym>)
    requires IsPrefix(a, b) && IsPrefix(b, c) && IsPrefix(a, c)
    requires NewFixups(a, b, at, x) && NewFixups(b, c, at + |x|, y)
    ensures NewFixups(a, c, at, x + y)
  {
    forall s | s in c[|a|..]
      ensures SiteIs(at, x + y, s.ip, CallOf(s.target))
    {
      InSuffix(a, b, c, s);
      SiteAppend(at, x, y, s.ip, CallOf(s.target));
    }
  }

  lemma {:induction false} SiteAppend(at: nat, x: seq<Sym>, y: seq<Sym>, ip: nat, sym: Sym)
    requires SiteIs(at, x, ip, sym) || SiteIs(at + |x|, y, ip, sym)
    ensures SiteIs(at, x + y, ip, sym)
  {
  }

  lemma {:induction false} OwedLater(b: Snap, c: Snap, i: nat, sym: Sym, t: Targets)
    requires i < |b.code| && Owed(b, i, sym, t)
    requires IsPrefix(b.code, c.code) && IsPrefix(b.consts, c.consts) && IsPrefix(b.fixups, c.fixups)
    requires c.entries == b.entries && IsPrefix(b.Breaks(), c.Breaks()) && IsPrefix(b.Continues(), c.Continues())
    ensures Owed(c, i, sym, t)
  {
    assert c.code[i] == c.code[..|b.code|][i];
    match sym
    case ConstOf(v) => assert c.consts[b.code[i].arg] == c.consts[..|b.consts|][b.code[i].arg];
    case CallOf(f) =>
      if Fixup(i, f) in b.fixups {
        InPrefix(b.fixups, c.fixups, Fixup(i, f));
      }
    case Plain(j) =>
      if i in b.Breaks() {
        InPrefix(b.Breaks(), c.Breaks(), i);
      }
      if i in b.Continues() {
        InPrefix(b.Continues(), c.Continues(), i);
      }
  }

  // ---------- patching ----------

  /** Every listed site gets the operand `target`. */
  function Patch(code: seq<Instr>, sites: seq<nat>, target: int): (c: seq<Instr>)
    ensures |c| == |code|
    ensures forall i :: 0 <= i < |code| ==> c[i] == if i in sites then Instr(code[i].op, target) else code[i]
  {
    seq(|code|, i requires 0 <= i < |code| => if i in sites then Instr(code[i].op, target) else code[i])
  }

  function WithLoop(a: Snap): Snap {
    a.(loops := a.loops + [LoopFrame(|a.code|, [], [])])
  }

  /** Leaving a loop: its breaks go to `t.brk`, its continues to `t.cont`, its frame is popped. */
  function CloseLoop(b: Snap, t: Targets): (d: Snap)
    requires b.loops != []
    ensures |d.code| == |b.code|
  {
    b.(code := Patch(Patch(b.code, b.Breaks(), t.brk), b.Continues(), t.cont), loops := b.loops[..|b.loops| - 1])
  }

  lemma {:induction false} InsideStretch(a: Snap, b: Snap, syms: seq<Sym>, t: Targets, i: nat)
    requires Emitted(WithLoop(a), b, syms, t) && i < |b.code|
    ensures b.loops != []
    ensures i in b.Breaks() ==> SiteIs(|a.code|, syms, i, I(JUMP, t.brk))
    ensures i in b.Continues() ==> SiteIs(|a.code|, syms, i, I(JUMP, t.cont))
    ensures i >= |a.code| ==> Owed(b, i, syms[i - |a.code|], t)
  {
    hide Owed, Spent;
    var w := WithLoop(a);
    assert b.Breaks()[|w.Breaks()|..] == b.Breaks();
    assert b.Continues()[|w.Continues()|..] == b.Continues();
    if i >= |a.code| {
      assert Owed(b, |w.code| + (i - |a.code|), syms[i - |a.code|], t);
    }
  }

  lemma {:induction false} ClosedAt(a: Snap, b: Snap, syms: seq<Sym>, t: Targets, outer: Targets, i: nat)
    requires Emitted(WithLoop(a), b, syms, t) && i < |b.code| && b.loops != []
    ensures i < |a.code| ==> CloseLoop(b, t).code[i] == a.code[i]
    ensures i >= |a.code| ==> Owed(CloseLoop(b, t), i, syms[i - |a.code|], outer)
  {
    InsideStretch(a, b, syms, t, i);
    KeptBefore(a, b, syms, t, i);
    hide Emitted, WithLoop, IsPrefix;
  }

  lemma {:induction false} KeptBefore(a: Snap, b: Snap, syms: seq<Sym>, t: Targets, i: nat)
    requires Emitted(WithLoop(a), b, syms, t) && i < |b.code|
    ensures i < |a.code| ==> b.code[i] == a.code[i]
  {
    assert i < |a.code| ==> b.code[..|WithLoop(a).code|][i] == a.code[i];
  }

  /** A closed loop owes nothing to its own targets. */
  lemma {:induction false} LoopClosed(a: Snap, b: Snap, syms: seq<Sym>, t: Targets, outer: Targets)
    requires Emitted(WithLoop(a), b, syms, t)
    ensures b.loops != [] && Emitted(a, CloseLoop(b, t), syms, outer)
  {
    LoopsPopped(a, b, syms, t);
    hide Framed;
    ClosedFrame(a, b, syms, t, outer);
    ClosedStretch(a, b, syms, t, outer);
  }

  lemma {:induction false} LoopsPopped(a: Snap, b: Snap, syms: seq<Sym>, t: Targets)
    requires Emitted(WithLoop(a), b, syms, t)
    ensures b.loops != [] && b.loops[..|b.loops| - 1] == a.loops && |b.code| == |a.code| + |syms|
  {
    var w := WithLoop(a);
    assert w.loops[..|w.loops| - 1] == a.loops;
  }

  lemma {:induction false} ClosedFrame(a: Snap, b: Snap, syms: seq<Sym>, t: Targets, outer: Targets)
    requires Emitted(WithLoop(a), b, syms, t) && b.loops != [] && b.loops[..|b.loops| - 1] == a.loops
    ensures Framed(a, CloseLoop(b, t), syms, outer)
  {
    hide Stretch, Owed, Spent, SitesOk;
    ClosedSites(a, b, syms, t, outer);
    ClosedPrefix(a, b, syms, t, outer);
    hide Patch;
  }

  lemma {:induction false} ClosedPrefix(a: Snap, b: Snap, syms: seq<Sym>, t: Targets, outer: Targets)
    requires Emitted(WithLoop(a), b, syms, t) && b.loops != [] && |a.code| <= |b.code|
    ensures CloseLoop(b, t).code[..|a.code|] == a.code
  {
    hide Emitted, CloseLoop;
    var d := CloseLoop(b, t);
    forall i | 0 <= i < |a.code|
      ensures d.code[i] == a.code[i]
    {
      ClosedAt(a, b, syms, t, outer, i);
    }
  }

  lemma {:induction false} ClosedStretch(a: Snap, b: Snap, syms: seq<Sym>, t: Targets, outer: Targets)
    requires Emitted(WithLoop(a), b, syms, t) && b.loops != [] && |b.code| == |a.code| + |syms|
    ensures Stretch(CloseLoop(b, t), |a.code|, syms, outer)
  {
    hide Emitted, Owed, CloseLoop;
    forall k {:trigger syms[k]} | 0 <= k < |syms|
      ensures Owed(CloseLoop(b, t), |a.code| + k, syms[k], outer)
    {
      var i := |a.code| + k;
      ClosedAt(a, b, syms, t, outer, i);
      assert i - |a.code| == k;
    }
  }

  lemma {:induction false} ClosedSites(a: Snap, b: Snap, syms: seq<Sym>, t: Targets, outer: Targets)
    requires Emitted(WithLoop(a), b, syms, t) && b.loops != [] && b.loops[..|b.loops| - 1] == a.loops
    ensures IsPrefix(a.fixups, b.fixups)
    ensures CloseLoop(b, t).Breaks() == a.Breaks() && CloseLoop(b, t).Continues() == a.Continues()
    ensures SitesOk(a, CloseLoop(b, t), syms, outer) && Spent(a, CloseLoop(b, t), |syms|)
  {
    hide Owed;
    var d := CloseLoop(b, t);
    assert d.Breaks()[|a.Breaks()|..] == [];
    assert d.Continues()[|a.Continues()|..] == [];
  }

  /** The same stretch behind a different prefix of the same length. */
  lemma {:induction false} Reprefix(a: Snap, n: Snap, syms: seq<Sym>, t: Targets, p: seq<Instr>)
    requires Emitted(a, n, syms, t) && |p| == |a.code|
    ensures Emitted(a.(code := p), n.(code := p + n.code[|a.code|..]), syms, t)
  {
    hide NewSites, NewFixups;
    var m := n.(code := p + n.code[|a.code|..]);
    var o := a.(code := p);
    assert m.code[..|p|] == p;
    assert m.Breaks() == n.Breaks() && m.Continues() == n.Continues();
    assert o.Breaks() == a.Breaks() && o.Continues() == a.Continues();
    assert Spent(o, m, |syms|) by { assert Spent(a, n, |syms|); }
    forall k {:trigger syms[k]} | 0 <= k < |syms|
      ensures Owed(m, |p| + k, syms[k], t)
    {
      assert Owed(n, |a.code| + k, syms[k], t);
      assert m.code[|p| + k] == n.code[|a.code| + k];
    }
  }

  lemma {:induction false} EmittedPlain(a: Snap, i: Instr, t: Targets)
    ensures Emitted(a, a.(code := a.code + [i]), [Plain(i)], t)
  {
  }

  /** Backpatching a two-armed conditional equals emitting it with its labels known.  Snapshots: after the
      condition, the first placeholder, the first arm, the second placeholder with the first one patched,
      the second arm. */
  lemma {:induction false} BranchEmitted(
    a: Snap, b: Snap, c: Snap, d: Snap, e: Snap, f: Snap, cc: seq<Sym>, ct: seq<Sym>, cf: seq<Sym>, t: Targets)
    requires Emitted(a, b, cc, t) && c == b.(code := b.code + [Instr(JUMP_IF_FALSE, 0)])
    requires Emitted(c, d, ct, t)
    requires |b.code| < |d.code|
    requires e == d.(code := (d.code + [Instr(JUMP, 0)])[|b.code| := Instr(JUMP_IF_FALSE, |d.code| + 1)])
    requires Emitted(e, f, cf, t)
    requires |d.code| < |f.code|
    ensures Emitted(a, f.(code := f.code[|d.code| := Instr(JUMP, |f.code|)]),
      Branch(cc, ct, cf, |d.code| + 1, |f.code|), t)
  {
    hide Emitted;
    var i1, i2 := Instr(JUMP_IF_FALSE, |d.code| + 1), Instr(JUMP, |f.code|);
    var c' := b.(code := b.code + [i1]);
    EmittedPlain(b, i1, t);
    EmittedAppend(a, b, c', cc, [Plain(i1)], t);
    Reprefix(c, d, ct, t, c'.code);
    var d' := d.(code := c'.code + d.code[|c.code|..]);
    EmittedAppend(a, c', d', cc + [Plain(i1)], ct, t);
    var e' := d'.(code := d'.code + [i2]);
    EmittedPlain(d', i2, t);
    EmittedAppend(a, d', e', cc + [Plain(i1)] + ct, [Plain(i2)], t);
    SameLength(c, d, ct, t);
    SameLength(e, f, cf, t);
    Reprefix(e, f, cf, t, e'.code);
    var f' := f.(code := e'.code + f.code[|e.code|..]);
    EmittedAppend(a, e', f', cc + [Plain(i1)] + ct + [Plain(i2)], cf, t);
    assert f'.code == f.code[|d.code| := i2];
  }

  lemma {:induction false} SameLength(a: Snap, n: Snap, syms: seq<Sym>, t: Targets)
    requires Emitted(a, n, syms, t)
    ensures |n.code| == |a.code| + |syms| && n.code[..|a.code|] == a.code
    ensures n.entries == a.entries && |n.loops| == |a.loops|
  {
  }

  // ---------- capacities ----------

  const BYTE_COST := 2
  const CONST_COST := 16
  const CALL_COST := 8

  /** What literals and calls cost, so that a byte of text, a constant and a fixup use the same part of their
      tables: one budget for the three. */
  const BUDGET := 16384


  /** There is room for `k` more instructions, `k` more sites of the innermost loop, `cost` of literals and calls and
      `depth` nested loops. */
  predicate Room(n: Snap, k: nat, cost: nat, depth: nat) {
    && |n.code| + k <= MAX_INSTRUCTIONS
    && CONST_COST * |n.consts| + cost <= BUDGET
    && BYTE_COST * n.stringBytes + cost <= BUDGET
    && CALL_COST * |n.fixups| + cost <= BUDGET
    && |n.loops| + depth <= MAX_LOOP_DEPTH
    && |n.Breaks()| + k <= MAX_LOOP_FIXUPS
    && |n.Continues()| + k <= MAX_LOOP_FIXUPS
  }

  lemma {:induction false} RoomLess(a: Snap, k: nat, cost: nat, depth: nat, k': nat, cost': nat, depth': nat)
    requires k' <= k && cost' <= cost && depth' <= depth
    ensures Room(a, k, cost, depth) ==> Room(a, k', cost', depth')
    ensures Room(a, k, cost, depth) && k >= 1 ==> |a.code| < MAX_INSTRUCTIONS
  {
  }

  /** The constant pool is within the limits of the program store, `stringBytes` counting its text. */
  predicate PoolOk(consts: seq<Value>, stringBytes: nat) {
    && |consts| <= MAX_CONSTANTS
    && (forall i :: 0 <= i < |consts| ==> consts[i] == Null || (consts[i].Str? && IsText(consts[i].s)))
    && A.TextTotal(consts) <= stringBytes <= MAX_STRING_BYTES
  }

  /** Code and constants are within the limits of the program store. */
  predicate Storable(n: Snap) {
    |n.code| <= MAX_INSTRUCTIONS && PoolOk(n.consts, n.stringBytes)
  }

  lemma {:induction false} PoolMore(consts: seq<Value>, stringBytes: nat, v: Value, bytes: nat)
    requires PoolOk(consts, stringBytes) && |consts| < MAX_CONSTANTS && stringBytes + bytes <= MAX_STRING_BYTES
    requires (v == Null && bytes == 0) || (v.Str? && IsText(v.s) && bytes == |v.s| + 1)
    ensures PoolOk(consts + [v], stringBytes + bytes)
  {
    A.TotalsSnoc(consts, v);
  }

  /** Emitted, with literals and calls of at most `cost`, and within the limits. */
  ghost predicate Compiled(a: Snap, n: Snap, syms: seq<Sym>, cost: nat, t: Targets) {
    && Emitted(a, n, syms, t)
    && CONST_COST * |n.consts| <= CONST_COST * |a.consts| + cost
    && BYTE_COST * n.stringBytes <= BYTE_COST * a.stringBytes + cost
    && CALL_COST * |n.fixups| <= CALL_COST * |a.fixups| + cost
    && (Storable(a) ==> Storable(n))
  }

  /** What a compiled piece leaves for the next one. */
  lemma {:induction false} PieceDone(
    a: Snap, n: Snap, syms: seq<Sym>, used: nat, t: Targets, k: nat, cost: nat, depth: nat)
    requires Compiled(a, n, syms, used, t)
    ensures |n.code| == |a.code| + |syms| && n.entries == a.entries && |n.loops| == |a.loops|
    ensures Room(a, |syms| + k, used + cost, depth) ==> Room(n, k, cost, depth)
  {
    hide Stretch, SitesOk;
  }

  lemma {:induction false} PieceAppend(
    a: Snap, b: Snap, c: Snap, x: seq<Sym>, y: seq<Sym>, usedX: nat, usedY: nat, t: Targets)
    requires Compiled(a, b, x, usedX, t) && Compiled(b, c, y, usedY, t)
    ensures Compiled(a, c, x + y, usedX + usedY, t)
  {
    hide Emitted;
    EmittedAppend(a, b, c, x, y, t);
  }

  lemma {:induction false} KeepsSite(a: Snap, n: Snap, syms: seq<Sym>, used: nat, t: Targets, i: nat)
    requires Compiled(a, n, syms, used, t) && i < |a.code|
    ensures i < |n.code| && n.code[i] == a.code[i]
  {
    assert n.code[..|a.code|][i] == n.code[i];
  }

  /** Emitting or patching one instruction uses one place of code and nothing else. */
  lemma {:induction false} RoomNext(a: Snap, n: Snap, one: nat, k: nat, cost: nat, depth: nat)
    requires |n.code| == |a.code| + one && n == a.(code := n.code)
    ensures Room(a, one + k, cost, depth) ==> Room(n, k, cost, depth)
  {
  }

  lemma {:induction false} PieceBranch(
    a: Snap, b: Snap, c: Snap, d: Snap, e: Snap, f: Snap, cc: seq<Sym>, ct: seq<Sym>, cf: seq<Sym>,
    usedC: nat, usedT: nat, usedF: nat, t: Targets)
    requires Compiled(a, b, cc, usedC, t) && c == b.(code := b.code + [Instr(JUMP_IF_FALSE, 0)])
    requires Compiled(c, d, ct, usedT, t)
    requires |b.code| < |d.code|
    requires e == d.(code := (d.code + [Instr(JUMP, 0)])[|b.code| := Instr(JUMP_IF_FALSE, |d.code| + 1)])
    requires Compiled(e, f, cf, usedF, t)
    requires |d.code| < |f.code|
    requires |c.code| <= MAX_INSTRUCTIONS && |e.code| <= MAX_INSTRUCTIONS
    ensures Compiled(a, f.(code := f.code[|d.code| := Instr(JUMP, |f.code|)]),
      Branch(cc, ct, cf, |d.code| + 1, |f.code|), usedC + usedT + usedF, t)
  {
    hide Emitted;
    BranchEmitted(a, b, c, d, e, f, cc, ct, cf, t);
  }

  lemma {:induction false} PieceMore(a: Snap, n: Snap, syms: seq<Sym>, used: nat, more: nat, t: Targets)
    requires Compiled(a, n, syms, used, t) && used <= more
    ensures Compiled(a, n, syms, more, t)
  {
  }

  lemma {:induction false} SitesInCode(a: Snap, b: Snap, syms: seq<Sym>, t: Targets)
    requires Emitted(WithLoop(a), b, syms, t)
    ensures forall x :: x in b.Breaks() ==> x < |b.code|
    ensures forall x :: x in b.Continues() ==> x < |b.code|
  {
    hide Owed, Spent;
    var w := WithLoop(a);
    assert b.Breaks()[|w.Breaks()|..] == b.Breaks();
    assert b.Continues()[|w.Continues()|..] == b.Continues();
  }

  lemma {:induction false} PieceLoop(a: Snap, b: Snap, syms: seq<Sym>, used: nat, t: Targets, outer: Targets)
    requires Compiled(WithLoop(a), b, syms, used, t)
    ensures b.loops != [] && Compiled(a, CloseLoop(b, t), syms, used, outer)
    ensures forall x :: x in b.Breaks() ==> x < |b.code|
    ensures forall x :: x in b.Continues() ==> x < |b.code|
  {
    SitesInCode(a, b, syms, t);
    hide Emitted;
    LoopClosed(a, b, syms, t, outer);
  }

  lemma {:induction false} RoomForLoop(a: Snap, k: nat, cost: nat, depth: nat)
    requires k <= MAX_LOOP_FIXUPS
    ensures Room(a, k, cost, depth + 1) ==> Room(WithLoop(a), k, cost, depth) && |a.loops| < MAX_LOOP_DEPTH
  {
  }

  lemma {:induction false} PieceNothing(a: Snap, t: Targets)
    ensures Compiled(a, a, [], 0, t)
  {
    EmittedNothing(a, t);
  }

  // ---------- what literals and calls cost ----------

  function ExprCost(e: Expr): nat {
    match e
    case LitStr(s) => BYTE_COST * (|s| + 1) + CONST_COST
    case LitNull => CONST_COST
    case Add(l, r) => ExprCost(l) + ExprCost(r)
    case Eq(l, r) => ExprCost(l) + ExprCost(r)
    case StrConcat(parts) => ExprsCost(parts)
    case If(c, t, f) => ExprCost(c) + ExprCost(t) + ExprCost(f)
    case Call(_, args) => ExprsCost(args) + CALL_COST
    case _ => 0
  }

  function ExprsCost(es: ExprList): nat {
    match es
    case NoExprs => 0
    case Exprs(e, tail) => ExprCost(e) + ExprsCost(tail)
  }

  function StmtCost(s: Stmt): nat {
    match s
    case Let(_, e) => ExprCost(e)
    case Eval(e) => ExprCost(e)
    case IfStmt(c, t, f) => ExprCost(c) + ListCost(t) + ListCost(f)
    case Loop(body) => ListCost(body)
    case Return(e) => ExprCost(e)
    case Block(body) => ListCost(body)
    case _ => 0
  }

  function ListCost(ss: StmtList): nat {
    match ss
    case NoStmts => 0
    case Stmts(s, tail) => StmtCost(s) + ListCost(tail)
  }

  function Max(a: nat, b: nat): nat {
    if a < b then b else a
  }

  function LoopDepth(s: Stmt): nat {
    match s
    case IfStmt(_, t, f) => Max(ListDepth(t), ListDepth(f))
    case Loop(body) => 1 + ListDepth(body)
    case Block(body) => ListDepth(body)
    case _ => 0
  }

  function ListDepth(ss: StmtList): nat {
    match ss
    case NoStmts => 0
    case Stmts(s, tail) => Max(LoopDepth(s), ListDepth(tail))
  }
}
