/** Acyclicity, and the argv root the host refers to by the literal handle 1. */
module Argv {
  import opened Values
  import opened Graph
  import opened Heap
  import opened HeapOps
  import opened Refinement
  import opened Gathering
  import opened HeapRuns
  import D = AstDump

  // ---------- acyclicity ----------

  predicate EdgeOk(nodes: seq<NodeVal>, argv: int, h: int, c: int) {
    c < h || (h == argv && InRange(c, |nodes|) && nodes[c - 1].children == [])
  }

  /** Children come before their parents; only the argv root has children behind it, and those are leaves. */
  ghost predicate Ordered(nodes: seq<NodeVal>, argv: int) {
    forall i, c :: 0 <= i < |nodes| && c in nodes[i].children ==> EdgeOk(nodes, argv, i + 1, c)
  }

  /** No walk comes back to where it started. */
  lemma {:induction false} NoCycle(nodes: seq<NodeVal>, argv: int, path: seq<int>)
    requires Ordered(nodes, argv) && |path| >= 2 && Walk(nodes, path)
    ensures path[0] != path[|path| - 1]
  {
    var last := |path| - 1;
    var i := 0;
    InnerNode(nodes, path, 0);
    while i < last
      invariant 0 <= i <= last && path[i] <= path[0] && (i > 0 ==> path[i] < path[0])
    {
      assert path[i + 1] in nodes[path[i] - 1].children;
      assert EdgeOk(nodes, argv, path[i], path[i + 1]);
      if path[i + 1] >= path[i] {
        if i + 1 < last {
          InnerNode(nodes, path, i + 1);
        }
        return;
      }
      i := i + 1;
    }
  }

  lemma {:induction false} InnerNode(nodes: seq<NodeVal>, path: seq<int>, k: nat)
    requires Walk(nodes, path) && k < |path| - 1
    ensures nodes[path[k] - 1].children != []
  {
    assert path[k + 1] in nodes[path[k] - 1].children;
  }

  lemma {:induction false} AppendOrdered(nodes: seq<NodeVal>, argv: int, n: NodeVal)
    requires Ordered(nodes, argv) && Closed(nodes) && HandlesOk(n.children, |nodes|)
    ensures Ordered(nodes + [n], argv)
  {
    var longer := nodes + [n];
    forall i, c | 0 <= i < |longer| && c in longer[i].children
      ensures EdgeOk(longer, argv, i + 1, c)
    {
      if i < |nodes| {
        assert EdgeOk(nodes, argv, i + 1, c);
      }
    }
  }

  lemma {:induction false} SlideOrdered(s: HeapState, extra: seq<int>)
    requires Sound(s) && Ordered(s.nodes, s.roots.argv)
    ensures Ordered(Collected(s, extra).nodes, Collected(s, extra).roots.argv)
  {
    hide LiveOf, Starts, AttrTotal, ChildTotal;
    var live, n := LiveFor(s, extra), |s.nodes|;
    var slid, argv := Slide(s.nodes, live, n), MovePin(live, s.roots.argv);
    forall i, r | 0 <= i < |slid| && r in slid[i].children
      ensures EdgeOk(slid, argv, i + 1, r)
    {
      var h := OldHandle(live, n, i + 1);
      SlideAt(s.nodes, live, n, h);
      var children := s.nodes[h - 1].children;
      var j :| 0 <= j < |children| && NewHandles(live, children)[j] == r;
      var c := children[j];
      assert c in children;
      assert EdgeOk(s.nodes, s.roots.argv, h, c);
      ClosedAt(s.nodes);
      LiveChildren(s.nodes, Starts(s.roots, extra), h, c);
      NewHandleOrder(live, c, h);
      SlideAt(s.nodes, live, n, c);
      assert NewHandles(live, []) == [];
    }
  }

  // ---------- the invariant of every run ----------

  /** Sound, acyclic, and the argv root is where the host expects it. */
  ghost predicate Tidy(s: HeapState) {
    Sound(s) && Ordered(s.nodes, s.roots.argv) && s.roots.argv == 1
  }

  /** The first node stays first: its rank among the survivors is 1. */
  lemma {:induction false} CollectTidy(s: HeapState, extra: seq<int>, allocs: nat)
    requires Tidy(s) && HandlesOk(extra, |s.nodes|)
    ensures Tidy(Collected(s, extra).(allocs := allocs))
    ensures HandlesOk(NewHandles(LiveFor(s, extra), extra), |Collected(s, extra).nodes|)
  {
    hide LiveFor, AttrTotal, ChildTotal, Closed, Ordered;
    CollectSound(s, extra);
    SlideOrdered(s, extra);
    var live := LiveFor(s, extra);
    if s.nodes != [] {
      PinLive(s, extra, 1);
      assert Count(live, 0) == 0 && Count(live, 1) == 1;
    }
  }

  lemma {:induction false} AppendTidy(s: HeapState, n: NodeVal)
    requires Tidy(s) && HandlesOk(n.children, |s.nodes|) && Fits(s.nodes, n)
    ensures Tidy(Append(s, n))
  {
    hide Fits, AttrTotal, ChildTotal;
    AppendSound(s, n);
    AppendOrdered(s.nodes, s.roots.argv, n);
  }

  lemma {:induction false} PlaceTidy(s: HeapState, n: NodeVal)
    requires Tidy(s) && HandlesOk(n.children, |s.nodes|)
    ensures Place(s, n).Created? ==> Tidy(Place(s, n).s)
  {
    hide Fits, Tidy, LiveFor, Collected, Collectable;
    CollectTidy(s, n.children, 0);
    if Fits(s.nodes, n) {
      AppendTidy(s, n);
    } else {
      var t, m := Collected(s, n.children).(allocs := 0), Renamed(n, LiveFor(s, n.children));
      if Fits(t.nodes, n) {
        FitsRenamed(t.nodes, n, m);
        AppendTidy(t, m);
      }
    }
  }

  lemma {:induction false} FitsRenamed(nodes: seq<NodeVal>, n: NodeVal, m: NodeVal)
    requires |m.attrs| == |n.attrs| && |m.children| == |n.children|
    ensures Fits(nodes, n) <==> Fits(nodes, m)
  {
  }

  lemma {:induction false} CreateTidy(s: HeapState, n: NodeVal)
    requires Tidy(s) && HandlesOk(n.children, |s.nodes|)
    ensures Create(s, n).Created? ==> Tidy(Create(s, n).s)
  {
    hide Fits, Tidy, LiveFor, Collected, Collectable, Place, Pressure;
    CollectTidy(s, n.children, 0);
    if Pressure(s, n) {
      PlaceTidy(Collected(s, n.children).(allocs := 0), Renamed(n, LiveFor(s, n.children)));
    } else {
      PlaceTidy(s, n);
    }
  }

  /** Reading operands touches neither nodes nor the argv pin. */
  lemma {:induction false} EvalKeeps(s: HeapState, op: Op)
    ensures var a := Eval(s, op); !a.Stop? ==> a.s.nodes == s.nodes && a.s.roots.argv == s.roots.argv
  {
    hide EvalAppendChild, EvalMakeErr, EvalMakeLit, EvalMakeField, EvalMakeMap, EvalMakeNode, Answer, AttrAnswer;
    if |Stack(s)| >= Arity(op) {
      match op
      case AppendChild => AppendChildKeeps(s);
      case MakeErr => MakeErrKeeps(s);
      case MakeLit(kind) => MakeLitKeeps(s, kind);
      case MakeField => MakeFieldKeeps(s);
      case MakeMap => GatherKeeps(s);
      case MakeNode => GatherKeeps(s);
      case _ =>
    }
  }

  predicate Keeps(s: HeapState, a: Action) {
    !a.Stop? ==> a.s.nodes == s.nodes && a.s.roots.argv == s.roots.argv
  }

  lemma {:induction false} AppendChildKeeps(s: HeapState)
    requires |Stack(s)| >= 2
    ensures Keeps(s, EvalAppendChild(s))
  {
    hide Boxed;
  }

  lemma {:induction false} MakeErrKeeps(s: HeapState)
    requires |Stack(s)| >= 4
    ensures Keeps(s, EvalMakeErr(s))
  {
  }

  lemma {:induction false} MakeLitKeeps(s: HeapState, kind: LitKind)
    requires |Stack(s)| >= 2
    ensures Keeps(s, EvalMakeLit(s, kind))
  {
  }

  lemma {:induction false} MakeFieldKeeps(s: HeapState)
    requires |Stack(s)| >= 2
    ensures Keeps(s, EvalMakeField(s))
  {
    hide Boxed;
  }

  lemma {:induction false} GatherKeeps(s: HeapState)
    ensures |Stack(s)| >= 1 ==> Keeps(s, EvalMakeMap(s))
    ensures |Stack(s)| >= 2 ==> Keeps(s, EvalMakeNode(s))
  {
  }

  /** A run that shows operands stay in range. */
  lemma {:induction false} EvalSound(s: HeapState, op: Op)
    requires Sound(s)
    ensures SameAction(Eval(s, op), Eval(s, op), Same(|s.nodes|))
  {
    hide Eval, SameAction, Sound, Related;
    StartRelated(s);
    EvalRelated(s, s, Same(|s.nodes|), op);
  }

  lemma {:induction false} DropTidy(s: HeapState, k: nat)
    requires Tidy(s) && k <= |Stack(s)|
    ensures Tidy(Drop(s, k))
  {
    hide Related, Ordered;
    StartRelated(s);
    DropRelated(s, s, Same(|s.nodes|), k);
  }

  /** Boxing operands keeps the heap tidy. */
  lemma {:induction false} BoxAllTidy(s: HeapState, count: nat, handles: seq<int>)
    requires Tidy(s)
    ensures BoxAll(s, count, handles).Held? ==> Tidy(BoxAll(s, count, handles).s)
    decreases count
  {
    hide Tidy, Create, Boxed;
    if count != 0 && Stack(s) != [] {
      var v, t := Top(s, 0), Drop(s, 1);
      DropTidy(s, 1);
      if v.Node? {
        BoxAllTidy(t, count - 1, [v.handle] + handles);
      } else {
        CreateTidy(t, Boxed(v));
        if Create(t, Boxed(v)).Created? {
          BoxAllTidy(Create(t, Boxed(v)).s, count - 1, [Create(t, Boxed(v)).handle] + handles);
        }
      }
    }
  }

  /** With steady handles the node is built over nodes that exist. */
  lemma {:induction false} GatheredTidy(s: HeapState, template: Template, count: nat)
    requires Tidy(s) && count <= |Stack(s)| && SteadyGather(s, template, count)
    ensures Gathered(s, template, count).Ran? ==> Tidy(Gathered(s, template, count).s)
  {
    hide Related, Holding, AllGood, Steady, BoxAll, Create, Closed, RootsOk, Ordered, AttrTotal, ChildTotal;
    var ren := Same(|s.nodes|);
    StartRelated(s);
    NothingHeld(s, s, ren);
    var ren1 := BoxAllHeld(s, s, ren, count, [], []);
    BoxAllTidy(s, count, []);
    if BoxAll(s, count, []).Held? {
      var u, hs := BoxAll(s, count, []).s, BoxAll(s, count, []).handles;
      HeldInRange(u, IdealBoxAll(s, count, []).s, ren1, hs, IdealBoxAll(s, count, []).handles);
      if ShapeOf(u.nodes, template, hs).Shape? {
        var n := ShapeOf(u.nodes, template, hs).n;
        ShapeChildren(u.nodes, template, hs);
        CreateTidy(u, n);
        CreatedHandle(u, n);
        PushTidy(Create(u, n));
      }
    }
  }

  lemma {:induction false} HeldInRange(u: HeapState, e: HeapState, ren: seq<int>, hs: seq<int>, xs: seq<int>)
    requires Holding(u, e, ren, hs, xs) && AllGood(ren, hs, xs)
    ensures HandlesOk(hs, |u.nodes|)
  {
    hide Related, AllGood, AllJudged, Anchored;
    RelatedLength(u, e, ren);
    GoodInRange(ren, |e.nodes|, hs, xs);
  }

  lemma {:induction false} StepTidy(s: HeapState, op: Op)
    requires Tidy(s) && SteadyStep(s, op)
    ensures HeapOps.Step(s, op).Ran? ==> Tidy(HeapOps.Step(s, op).s)
  {
    hide Eval, Create, Closed, RootsOk, AttrTotal, ChildTotal, Ordered, Related, SteadyGather, Gathered, TemplateOk;
    EvalKeeps(s, op);
    EvalSound(s, op);
    match Eval(s, op)
    case Make(t, n) =>
      CreateTidy(t, n);
      CreatedHandle(t, n);
      PushTidy(Create(t, n));
    case MakeBoxed(t, box, key) =>
      CreateTidy(t, box);
      if Create(t, box).Created? {
        var u, h := Create(t, box).s, Create(t, box).handle;
        CreatedHandle(t, box);
        CreateTidy(u, FieldNode(key, h));
        CreatedHandle(u, FieldNode(key, h));
        PushTidy(Create(u, FieldNode(key, h)));
      }
    case MakeMany(t, template, count) => GatheredTidy(t, template, count);
    case _ =>
  }

  lemma {:induction false} PushTidy(o: Outcome)
    requires o.Created? ==> Tidy(o.s) && InRange(o.handle, |o.s.nodes|)
    ensures PushCreated(o).Ran? ==> Tidy(PushCreated(o).s)
  {
    hide AttrTotal, ChildTotal, Closed, Ordered;
    if o.Created? {
      forall v | v in Stack(o.s) + [Node(o.handle)]
        ensures ValueOk(v, |o.s.nodes|)
      {
      }
    }
  }

  /** Through any number of allocations and collections the heap stays sound and acyclic and the argv root
      keeps handle 1. */
  lemma {:induction false} RunTidy(s: HeapState, ops: seq<Op>)
    requires Tidy(s) && SteadyRun(s, ops)
    ensures HeapOps.Run(s, ops).Ran? ==> Tidy(HeapOps.Run(s, ops).s)
    decreases |ops|
  {
    hide HeapOps.Step, Tidy, SteadyStep;
    if ops != [] {
      StepTidy(s, ops[0]);
      if HeapOps.Step(s, ops[0]).Ran? {
        RunTidy(HeapOps.Step(s, ops[0]).s, ops[1..]);
      }
    }
  }

  // ---------- the argument list stays what it is ----------

  /** The unbounded heap only grows, and its pins stay. */
  ghost predicate Grown(s: HeapState, t: HeapState) {
    |s.nodes| <= |t.nodes| && t.nodes[..|s.nodes|] == s.nodes && t.roots.argv == s.roots.argv
  }

  lemma {:induction false} GrownTrans(s: HeapState, t: HeapState, u: HeapState)
    requires Grown(s, t) && Grown(t, u)
    ensures Grown(s, u)
  {
    assert u.nodes[..|s.nodes|] == u.nodes[..|t.nodes|][..|s.nodes|];
  }

  lemma {:induction false} BoxAllGrown(s: HeapState, count: nat, handles: seq<int>)
    ensures IdealBoxAll(s, count, handles).Held? ==> Grown(s, IdealBoxAll(s, count, handles).s)
    decreases count
  {
    hide Grown, Boxed;
    GrownSelf(s);
    if count != 0 && Stack(s) != [] {
      var v, t := Top(s, 0), Drop(s, 1);
      GrownDrop(s, Boxed(v));
      if v.Node? {
        BoxAllGrown(t, count - 1, [v.handle] + handles);
        if IdealBoxAll(s, count, handles).Held? {
          GrownTrans(s, t, IdealBoxAll(s, count, handles).s);
        }
      } else {
        BoxAllGrown(Append(t, Boxed(v)), count - 1, [|t.nodes| + 1] + handles);
        if IdealBoxAll(s, count, handles).Held? {
          GrownTrans(s, Append(t, Boxed(v)), IdealBoxAll(s, count, handles).s);
        }
      }
    }
  }

  lemma {:induction false} GrownSelf(s: HeapState)
    ensures Grown(s, s)
  {
  }

  lemma {:induction false} GrownDrop(s: HeapState, n: NodeVal)
    ensures Stack(s) != [] ==> Grown(s, Drop(s, 1)) && Grown(s, Append(Drop(s, 1), n))
  {
  }

  lemma {:induction false} StepGrown(s: HeapState, op: Op)
    ensures IdealStep(s, op).Ran? ==> Grown(s, IdealStep(s, op).s)
  {
    hide Eval;
    EvalKeeps(s, op);
    if Eval(s, op).MakeMany? {
      BoxAllGrown(Eval(s, op).s, Eval(s, op).count, []);
    }
  }

  lemma {:induction false} RunGrown(s: HeapState, ops: seq<Op>)
    ensures IdealRun(s, ops).Ran? ==> Grown(s, IdealRun(s, ops).s)
    decreases |ops|
  {
    hide IdealStep, Grown;
    GrownSelf(s);
    if ops != [] && IdealStep(s, ops[0]).Ran? {
      StepGrown(s, ops[0]);
      RunGrown(IdealStep(s, ops[0]).s, ops[1..]);
      if IdealRun(s, ops).Ran? {
        GrownTrans(s, IdealStep(s, ops[0]).s, IdealRun(s, ops).s);
      }
    }
  }

  /** After any run, however often the heap was compacted: the handle 1 that the host answers to
      sys.process.args still names the argument list, the same record over as many items, and fetching the list
      pushes it. */
  lemma {:induction false} ArgvKept(s: HeapState, ops: seq<Op>)
    requires Tidy(s) && s.nodes != [] && SteadyRun(s, ops) && HeapOps.Run(s, ops).Ran?
    ensures var t := HeapOps.Run(s, ops).s;
      && t.nodes != [] && Eval(t, Args) == PushValue(t, Node(1))
      && var was, now := s.nodes[0], t.nodes[0];
         now.kind == was.kind && now.id == was.id && now.attrs == was.attrs && |now.children| == |was.children|
  {
    hide HeapOps.Run, IdealRun, SteadyRun, Ordered, Closed, AttrTotal, ChildTotal;
    StartRelated(s);
    var ren := RunRelated(s, s, Same(|s.nodes|), ops);
    RunTidy(s, ops);
    RunGrown(s, ops);
    var t, d := HeapOps.Run(s, ops).s, IdealRun(s, ops).s;
    assert d.nodes[0] == d.nodes[..|s.nodes|][0];
    assert d.roots.argv == RenPin(ren, 1);
    assert ren[0] == 1;
    assert d.nodes[ren[0] - 1] == RenNode(ren, t.nodes[0]);
  }

  // ---------- start-up ----------

  /** The argv root names its items before they exist. */
  function ArgvRoot(n: nat): NodeVal {
    NodeVal("Block", "argv0", [], seq(n, i => i + 2))
  }

  function ArgvItem(i: nat, arg: string): NodeVal {
    NodeVal("Lit", "argv_item_" + D.Decimal(i), [Attr("value", Text(arg))], [])
  }

  const EMPTY := HeapState([], Roots(0, 0, 0, [], [], [], []), 0)

  ghost function InitItems(s: HeapState, args: seq<string>, i: nat): StepResult
    requires i <= |args|
    decreases |args| - i
  {
    if i == |args| then Ran(s)
    else
      match Create(s, ArgvItem(i, args[i]))
      case Refused(e) => Halted(e)
      case Created(t, h) => if h != i + 2 then Halted(InvalidProgram) else InitItems(t, args, i + 1)
  }

  /** initialize_process_argv_node */
  ghost function InitArgv(args: seq<string>): StepResult {
    if |args| > NODE_CAPACITY then Halted(InvalidProgram)
    else
      match Create(EMPTY, ArgvRoot(|args|))
      case Refused(e) => Halted(e)
      case Created(t, h) =>
        if h != 1 then Halted(InvalidProgram) else InitItems(t.(roots := t.roots.(argv := h)), args, 0)
  }

  /** The heap with the root and the first `i` items. */
  function ArgvHeap(args: seq<string>, i: nat): HeapState
    requires i <= |args|
  {
    HeapState([ArgvRoot(|args|)] + seq(i, k requires 0 <= k < i => ArgvItem(k, args[k])), EMPTY.roots.(argv := 1), i + 1)
  }

  lemma {:induction false} NoTotals()
    ensures AttrTotal([]) == 0 && ChildTotal([]) == 0
  {
  }

  lemma {:induction false} ArgvTotals(args: seq<string>, i: nat)
    requires i <= |args|
    ensures AttrTotal(ArgvHeap(args, i).nodes) == i && ChildTotal(ArgvHeap(args, i).nodes) == |args|
    decreases i
  {
    hide AttrTotal, ChildTotal, D.Decimal;
    var nodes := ArgvHeap(args, i).nodes;
    if i == 0 {
      assert nodes == [] + [ArgvRoot(|args|)];
      NoTotals();
      TotalSnoc([], ArgvRoot(|args|));
    } else {
      ArgvTotals(args, i - 1);
      assert nodes == ArgvHeap(args, i - 1).nodes + [ArgvItem(i - 1, args[i - 1])];
      TotalSnoc(ArgvHeap(args, i - 1).nodes, ArgvItem(i - 1, args[i - 1]));
    }
  }

  lemma {:induction false} ArgvStep(args: seq<string>, i: nat)
    requires i < |args| <= NODE_CAPACITY && i + 1 < NODE_PRESSURE
    ensures Create(ArgvHeap(args, i), ArgvItem(i, args[i])) == Created(ArgvHeap(args, i + 1), i + 2)
  {
    hide Collected, Collectable, LiveFor, AttrTotal, ChildTotal, D.Decimal;
    ArgvTotals(args, i);
    assert ArgvHeap(args, i + 1).nodes == ArgvHeap(args, i).nodes + [ArgvItem(i, args[i])];
  }

  /** With too many arguments a proactive collection falls into start-up and meets the root's forward
      references. */
  lemma {:induction false} ArgvStuck(args: seq<string>, i: nat)
    requires i < |args| && i + 1 == NODE_PRESSURE
    ensures Create(ArgvHeap(args, i), ArgvItem(i, args[i])) == Refused(InvalidProgram)
  {
    hide Collected, LiveOf, Starts, AttrTotal, ChildTotal, D.Decimal;
    var s := ArgvHeap(args, i);
    PinLive(s, [], 1);
    var children := s.nodes[0].children;
    assert children[|args| - 1] == |args| + 1;
    assert |args| + 1 in children && !InRange(|args| + 1, |s.nodes|);
    assert !HandlesOk(children, |s.nodes|);
  }

  lemma {:induction false} ArgvItems(args: seq<string>, i: nat)
    requires i <= |args| <= NODE_CAPACITY && i < NODE_PRESSURE
    ensures InitItems(ArgvHeap(args, i), args, i) ==
      if |args| < NODE_PRESSURE then Ran(ArgvHeap(args, |args|)) else Halted(InvalidProgram)
    decreases |args| - i
  {
    hide Create, ArgvHeap, ArgvItem;
    if i < |args| {
      if i + 1 < NODE_PRESSURE {
        ArgvStep(args, i);
        ArgvItems(args, i + 1);
      } else {
        ArgvStuck(args, i);
      }
    }
  }

  lemma {:induction false} ArgvTidy(args: seq<string>)
    requires |args| < NODE_PRESSURE
    ensures Tidy(ArgvHeap(args, |args|))
  {
    hide AttrTotal, ChildTotal, D.Decimal;
    ArgvTotals(args, |args|);
  }

  /** aivm_reset_state: the nodes made for the arguments do not count as allocations. */
  ghost function Startup(args: seq<string>): StepResult {
    match InitArgv(args)
    case Halted(e) => Halted(e)
    case Ran(s) => Ran(s.(allocs := 0))
  }

  /** Start-up succeeds exactly for fewer than 384 arguments, although its own check allows 512.  Then the
      root has handle 1, argument `i` has handle `i + 2`, and every later run keeps the heap tidy. */
  lemma {:induction false} InitExact(args: seq<string>)
    ensures InitArgv(args).Ran? <==> |args| < NODE_PRESSURE
    ensures InitArgv(args).Ran? ==> InitArgv(args).s == ArgvHeap(args, |args|)
    ensures Startup(args).Ran? ==> Tidy(Startup(args).s)
  {
    hide Collected, Collectable, LiveFor, D.Decimal, InitItems, Tidy;
    if |args| <= NODE_CAPACITY {
      TotalSnoc([], ArgvRoot(|args|));
      assert [] + [ArgvRoot(|args|)] == [ArgvRoot(|args|)];
      assert ArgvHeap(args, 0).nodes == [ArgvRoot(|args|)];
      ArgvItems(args, 0);
      if |args| < NODE_PRESSURE {
        ArgvTidy(args);
        ResetTidy(ArgvHeap(args, |args|));
      }
    }
  }

  lemma {:induction false} ResetTidy(s: HeapState)
    requires Tidy(s)
    ensures Tidy(s.(allocs := 0))
  {
    hide Ordered, Sound;
    SoundAllocs(s, []);
  }
}
