/** What goes wrong when plain operands are boxed one after the other: nothing refers to a box that is held in a
    C local, so the first collection forgets it. */
module Boxing {
  import opened Values
  import opened Graph
  import opened Heap
  import opened HeapOps
  import opened Refinement
  import opened Gathering
  import opened HeapRuns
  import A = Argv
  import D = AstDump

  /** Nothing refers to a node that was just allocated. */
  lemma {:induction false} FreshUnreached(t: HeapState, x: seq<NodeVal>, b: NodeVal)
    requires t.nodes == x + [b] && Closed(x) && RootsOk(t.roots, |x|) && b.children == []
    ensures !LiveFor(t, [])[|x|]
  {
    var starts, h := Starts(t.roots, []), |x| + 1;
    if Reachable(t.nodes, starts, h) {
      var live := seq(|t.nodes|, i => i < |x|);
      forall s | s in starts && InRange(s, |t.nodes|)
        ensures live[s - 1]
      {
        RootBelow(t.roots, s, |x|);
      }
      forall i | 0 <= i < |t.nodes| && live[i]
        ensures ChildrenIn(t.nodes[i].children, live)
      {
        assert HandlesOk(x[i].children, |x|);
      }
      ReachableClosed(t.nodes, starts, h, live);
    }
  }

  lemma {:induction false} RootBelow(r: Roots, h: int, n: nat)
    requires RootsOk(r, n) && h in Starts(r, [])
    ensures h <= n
  {
    if h in Handles(r.stack) {
      BelowIn(r.stack, h, n);
    } else if h in Handles(r.locals) {
      BelowIn(r.locals, h, n);
    } else if h in Handles(r.tasks) {
      BelowIn(r.tasks, h, n);
    } else if h in Handles(r.pars) {
      BelowIn(r.pars, h, n);
    }
  }

  lemma {:induction false} BelowIn(vs: seq<Value>, h: int, n: nat)
    requires ValuesOk(vs, n) && h in Handles(vs)
    ensures h <= n
  {
    var v :| v in vs && v.Node? && v.handle == h;
    assert ValueOk(v, n);
  }

  /** An allocation of `b` runs the collector. */
  predicate Collects(s: HeapState, b: NodeVal) {
    Pressure(s, b) || !Fits(s.nodes, b)
  }

  /** A held box keeps its name over the next allocation exactly if that allocation does not collect. */
  lemma {:induction false} BoxKept(t: HeapState, x: seq<NodeVal>, b1: NodeVal, b2: NodeVal)
    requires t.nodes == x + [b1] && Closed(x) && RootsOk(t.roots, |x|) && b1.children == [] && b2.children == []
    ensures NameAfter(t, b2, |x| + 1) == |x| + 1 <==> !Collects(t, b2)
  {
    hide Collected, LiveFor, Fits, Pressure;
    FreshUnreached(t, x, b1);
    assert NewHandle(LiveFor(t, []), |x| + 1) == 0;
  }

  // ---------- a run on which it goes wrong ----------

  const LEAF := NodeVal("Block", "x", [], [])

  /** Make a block and drop it, `k` times. */
  function Fill(k: nat): (ops: seq<Op>)
    ensures |ops| == 3 * k
  {
    if k == 0 then [] else Fill(k - 1) + [Push(Str("x")), MakeBlock, Pop]
  }

  /** The heap after `k` of them: the argv root, and garbage. */
  function Filled(k: nat): HeapState {
    HeapState([A.ArgvRoot(0)] + seq(k, i => LEAF), Roots(1, 0, 0, [], [], [], []), k)
  }

  const BLOCKS := NODE_PRESSURE - 2

  /** MAKE_MAP on two plain values, the heap two nodes short of pressure. */
  function LosingOps(): seq<Op> {
    Fill(BLOCKS) + [Push(Int(1)), Push(Int(2)), Push(Int(2)), MakeMap]
  }

  /** The map's second child is the forgotten box's old name. */
  function Lost(): HeapState {
    HeapState([A.ArgvRoot(0), Boxed(Int(1)), NodeVal("Map", "map", [], [2, NODE_PRESSURE])],
      Roots(1, 0, 0, [Node(3)], [], [], []), 2)
  }

  lemma {:induction false} RunCat(s: HeapState, a: seq<Op>, b: seq<Op>)
    ensures HeapOps.Run(s, a + b) ==
      match HeapOps.Run(s, a) case Halted(e) => Halted(e) case Ran(t) => HeapOps.Run(t, b)
    decreases |a|
  {
    hide HeapOps.Step;
    if a == [] {
      assert a + b == b;
    } else {
      assert (a + b)[0] == a[0] && (a + b)[1..] == a[1..] + b;
      if HeapOps.Step(s, a[0]).Ran? {
        RunCat(HeapOps.Step(s, a[0]).s, a[1..], b);
      }
    }
  }

  lemma {:induction false} LeafTotals(k: nat)
    ensures AttrTotal(Filled(k).nodes) == 0 && ChildTotal(Filled(k).nodes) == 0
  {
    hide AttrTotal, ChildTotal;
    if k == 0 {
      A.NoTotals();
      TotalSnoc([], A.ArgvRoot(0));
      assert Filled(0).nodes == [] + [A.ArgvRoot(0)];
    } else {
      LeafTotals(k - 1);
      assert Filled(k).nodes == Filled(k - 1).nodes + [LEAF];
      TotalSnoc(Filled(k - 1).nodes, LEAF);
    }
  }

  /** One more block. */
  lemma {:induction false} FillStep(k: nat)
    requires k < BLOCKS
    ensures HeapOps.Run(Filled(k), [Push(Str("x")), MakeBlock, Pop]) == Ran(Filled(k + 1))
  {
    hide HeapOps.Step, Filled;
    var s, ops := Filled(k), [Push(Str("x")), MakeBlock, Pop];
    var t, u := WithStack(s, [Str("x")]), WithStack(Append(s, LEAF), [Node(k + 2)]);
    FillSteps(k);
    assert ops[1..][1..] == [Pop] && ops[1..][0] == MakeBlock && ops[1..][1..][1..] == [];
    assert HeapOps.Run(Filled(k + 1), []) == Ran(Filled(k + 1));
    assert HeapOps.Run(u, [Pop]) == Ran(Filled(k + 1));
    assert HeapOps.Run(t, [MakeBlock, Pop]) == Ran(Filled(k + 1));
  }

  lemma {:induction false} FillSteps(k: nat)
    requires k < BLOCKS
    ensures var s := Filled(k);
      var t, u := WithStack(s, [Str("x")]), WithStack(Append(s, LEAF), [Node(k + 2)]);
      && HeapOps.Step(s, Push(Str("x"))) == Ran(t)
      && HeapOps.Step(t, MakeBlock) == Ran(u)
      && HeapOps.Step(u, Pop) == Ran(Filled(k + 1))
  {
    hide HeapOps.Step;
    var s := Filled(k);
    PushStep(s, Str("x"));
    assert [] + [Str("x")] == [Str("x")];
    BlockStep(k);
    PopStep(WithStack(Append(s, LEAF), [Node(k + 2)]));
    Refilled(k);
  }

  lemma {:induction false} Refilled(k: nat)
    ensures Drop(WithStack(Append(Filled(k), LEAF), [Node(k + 2)]), 1) == Filled(k + 1)
  {
    assert Filled(k + 1).nodes == Filled(k).nodes + [LEAF];
  }

  lemma {:induction false} PopStep(s: HeapState)
    requires |Stack(s)| >= 1
    ensures HeapOps.Step(s, Pop) == Ran(Drop(s, 1))
  {
  }

  lemma {:induction false} BlockStep(k: nat)
    requires k < BLOCKS
    ensures HeapOps.Step(WithStack(Filled(k), [Str("x")]), MakeBlock) ==
      Ran(WithStack(Append(Filled(k), LEAF), [Node(k + 2)]))
  {
    hide Collected, Collectable, LiveFor, AttrTotal, ChildTotal;
    LeafTotals(k);
    var s := Filled(k);
    var t := WithStack(s, [Str("x")]);
    assert Drop(t, 1) == s;
    assert Eval(t, MakeBlock) == Make(s, LEAF);
    hide Eval;
    assert Create(s, LEAF) == Created(Append(s, LEAF), k + 2);
    assert [] + [Node(k + 2)] == [Node(k + 2)];
  }

  lemma {:induction false} FillRun(k: nat)
    requires k <= BLOCKS
    ensures HeapOps.Run(Filled(0), Fill(k)) == Ran(Filled(k))
  {
    hide HeapOps.Step, Filled;
    if k != 0 {
      FillRun(k - 1);
      FillStep(k - 1);
      RunCat(Filled(0), Fill(k - 1), [Push(Str("x")), MakeBlock, Pop]);
    }
  }

  // ---------- the boxes ----------

  /** Nodes without children are reached only as starts. */
  lemma {:induction false} OnlyStarts(nodes: seq<NodeVal>, starts: set<int>, h: int)
    requires (forall i :: 0 <= i < |nodes| ==> nodes[i].children == []) && Reachable(nodes, starts, h)
    ensures h in starts
  {
    var path :| WalkTo(nodes, starts, h, path);
    if |path| > 1 {
      A.InnerNode(nodes, path, 0);
    }
  }

  /** A heap of childless nodes whose only root is the first of them. */
  predicate RootAlone(s: HeapState) {
    && s.nodes != [] && (forall i :: 0 <= i < |s.nodes| ==> s.nodes[i].children == [])
    && s.roots == Roots(1, 0, 0, [], [], [], [])
  }

  lemma {:induction false} RootAloneLive(s: HeapState)
    requires RootAlone(s)
    ensures var live := LiveFor(s, []); live[0] && forall i :: 0 < i < |live| ==> !live[i]
  {
    var starts := Starts(s.roots, []);
    assert starts == {1, 0};
    StartReachable(s.nodes, starts, 1);
    forall i | 0 < i < |s.nodes|
      ensures !LiveFor(s, [])[i]
    {
      if Reachable(s.nodes, starts, i + 1) {
        OnlyStarts(s.nodes, starts, i + 1);
      }
    }
  }

  lemma {:induction false} FirstAlone(live: seq<bool>, nodes: seq<NodeVal>, k: nat)
    requires |live| == |nodes| && 1 <= k <= |live| && live[0] && forall i :: 0 < i < |live| ==> !live[i]
    ensures Count(live, k) == 1 && Slide(nodes, live, k) == [Renamed(nodes[0], live)]
    decreases k
  {
    if k == 1 {
      assert Count(live, 0) == 0 && Slide(nodes, live, 0) == [];
    } else {
      FirstAlone(live, nodes, k - 1);
    }
  }

  /** A collection leaves nothing but the root. */
  lemma {:induction false} CollectAlone(s: HeapState)
    requires RootAlone(s)
    ensures Collected(s, []) == s.(nodes := [s.nodes[0]])
  {
    hide Slide, Count, Reachable, Starts;
    var live := LiveFor(s, []);
    RootAloneLive(s);
    hide LiveFor;
    FirstAlone(live, s.nodes, |s.nodes|);
    FirstAlone(live, s.nodes, 1);
    LeafRenamed(s.nodes[0], live);
    assert MoveValues(live, []) == [];
  }

  /** The heap with the first box in it. */
  function OneBox(): HeapState {
    Append(Filled(BLOCKS), Boxed(Int(2)))
  }

  lemma {:induction false} FirstBox(stack: seq<Value>)
    ensures Create(WithStack(Filled(BLOCKS), stack), Boxed(Int(2))) == Created(WithStack(OneBox(), stack), NODE_PRESSURE)
    ensures RootAlone(OneBox()) && Sound(OneBox()) && |OneBox().nodes| == NODE_PRESSURE
  {
    hide Collected, Collectable, LiveFor, AttrTotal, ChildTotal;
    LeafTotals(BLOCKS);
    TotalSnoc(Filled(BLOCKS).nodes, Boxed(Int(2)));
    var nodes := OneBox().nodes;
    forall i | 0 <= i < |nodes|
      ensures nodes[i].children == []
    {
    }
  }

  /** The heap after the second box: the first one is gone. */
  function TwoBoxes(): HeapState {
    HeapState([A.ArgvRoot(0), Boxed(Int(1))], Roots(1, 0, 0, [], [], [], []), 1)
  }

  lemma {:induction false} SmallTotals(nodes: seq<NodeVal>)
    requires forall i :: 0 <= i < |nodes| ==> |nodes[i].attrs| <= 3 && |nodes[i].children| <= 3
    ensures AttrTotal(nodes) <= 3 * |nodes| && ChildTotal(nodes) <= 3 * |nodes|
  {
    if nodes != [] {
      SmallTotals(nodes[..|nodes| - 1]);
    }
  }

  lemma {:induction false} SecondBox()
    ensures Create(OneBox(), Boxed(Int(1))) == Created(TwoBoxes(), 2)
  {
    hide Collected, LiveFor, AttrTotal, ChildTotal, Sound, RootAlone;
    FirstBox([]);
    CollectSound(OneBox(), []);
    CollectAlone(OneBox());
    var t := Collected(OneBox(), []).(allocs := 0);
    assert OneBox().nodes[0] == A.ArgvRoot(0);
    SmallTotals(t.nodes);
    LeafRenamed(Boxed(Int(1)), LiveFor(OneBox(), []));
    assert Append(t, Boxed(Int(1))) == TwoBoxes();
  }

  lemma {:induction false} MapOver()
    ensures PushCreated(Create(TwoBoxes(), NodeVal("Map", "map", [], [2, NODE_PRESSURE]))) == Ran(Lost())
  {
    hide Collected, Collectable, LiveFor, AttrTotal, ChildTotal;
    SmallTotals(TwoBoxes().nodes);
    var n := NodeVal("Map", "map", [], [2, NODE_PRESSURE]);
    assert TwoBoxes().nodes + [n] == Lost().nodes;
    assert [] + [Node(3)] == [Node(3)];
  }

  /** MAKE_MAP itself. */
  lemma {:induction false} MapStep(s: HeapState)
    requires s == WithStack(Filled(BLOCKS), [Int(1), Int(2), Int(2)])
    ensures HeapOps.Step(s, MakeMap) == Ran(Lost())
  {
    hide Create, AttrTotal, ChildTotal, Boxed, Filled, PushCreated, OneBox;
    var t := WithStack(Filled(BLOCKS), [Int(1), Int(2)]);
    assert Drop(s, 1) == t;
    assert Eval(s, MakeMap) == MakeMany(t, MapShape, 2);
    MapBoxes();
    MapOver();
  }

  lemma {:induction false} MapBoxes()
    ensures BoxAll(WithStack(Filled(BLOCKS), [Int(1), Int(2)]), 2, []) == Held(TwoBoxes(), [2, NODE_PRESSURE])
  {
    hide Create, AttrTotal, ChildTotal, Boxed, Filled, OneBox;
    var t := WithStack(Filled(BLOCKS), [Int(1), Int(2)]);
    var u := WithStack(Filled(BLOCKS), [Int(1)]);
    var v := WithStack(OneBox(), [Int(1)]);
    assert Drop(t, 1) == u && Top(t, 0) == Int(2);
    FirstBox([Int(1)]);
    assert BoxAll(t, 2, []) == BoxAll(v, 1, [NODE_PRESSURE] + []);
    OneBoxStack();
    assert Drop(v, 1) == OneBox() && Top(v, 0) == Int(1);
    SecondBox();
    assert [NODE_PRESSURE] + [] == [NODE_PRESSURE] && [2] + [NODE_PRESSURE] == [2, NODE_PRESSURE];
    assert BoxAll(v, 1, [NODE_PRESSURE]) == BoxAll(TwoBoxes(), 0, [2, NODE_PRESSURE]);
  }

  lemma {:induction false} OneBoxStack()
    ensures Stack(OneBox()) == []
  {
  }

  lemma {:induction false} PushStep(s: HeapState, v: Value)
    requires !v.Node? && |Stack(s)| < STACK_CAPACITY
    ensures HeapOps.Step(s, Push(v)) == Ran(WithStack(s, Stack(s) + [v]))
  {
    assert Eval(s, Push(v)) == PushValue(s, v);
    hide Eval;
  }

  lemma {:induction false} LastOps(s: HeapState)
    requires s == Filled(BLOCKS)
    ensures HeapOps.Run(s, [Push(Int(1)), Push(Int(2)), Push(Int(2)), MakeMap]) == Ran(Lost())
  {
    hide HeapOps.Step, Lost;
    var ops := [Push(Int(1)), Push(Int(2)), Push(Int(2)), MakeMap];
    var t := WithStack(s, [Int(1)]);
    var u := WithStack(s, [Int(1), Int(2)]);
    var v := WithStack(s, [Int(1), Int(2), Int(2)]);
    FilledStack();
    PushStep(s, Int(1));
    PushStep(t, Int(2));
    PushStep(u, Int(2));
    hide Filled;
    assert [] + [Int(1)] == [Int(1)] && [Int(1)] + [Int(2)] == [Int(1), Int(2)];
    assert [Int(1), Int(2)] + [Int(2)] == [Int(1), Int(2), Int(2)];
    MapStep(v);
    assert ops[1..] == [Push(Int(2)), Push(Int(2)), MakeMap];
    assert ops[1..][1..] == [Push(Int(2)), MakeMap] && ops[1..][1..][1..] == [MakeMap];
    assert HeapOps.Run(Lost(), []) == Ran(Lost());
    assert HeapOps.Run(v, [MakeMap]) == Ran(Lost());
    assert HeapOps.Run(u, [Push(Int(2)), MakeMap]) == Ran(Lost());
    assert HeapOps.Run(t, [Push(Int(2)), Push(Int(2)), MakeMap]) == Ran(Lost());
  }

  lemma {:induction false} FilledStack()
    ensures Stack(Filled(BLOCKS)) == []
  {
  }

  /** A run from start-up on which boxing goes wrong: the map is built over a handle that names nothing, and no
      renaming makes the outcome that of the unbounded heap. */
  lemma {:induction false} MapLost()
    ensures A.Startup([]).Ran?
    ensures var s := A.Startup([]).s;
      && HeapOps.Run(s, LosingOps()) == Ran(Lost())
      && !Sound(Lost()) && forall ren :: !SameResult(HeapOps.Run(s, LosingOps()), IdealRun(s, LosingOps()), ren)
  {
    hide HeapOps.Run, IdealRun, Related, D.Decimal, A.InitItems, Collected, LiveFor, A.Tidy;
    A.InitExact([]);
    assert A.Startup([]).s == Filled(0) by {
      assert A.ArgvHeap([], 0).nodes == [A.ArgvRoot(0)] && Filled(0).nodes == [A.ArgvRoot(0)];
    }
    FillRun(BLOCKS);
    RunCat(Filled(0), Fill(BLOCKS), [Push(Int(1)), Push(Int(2)), Push(Int(2)), MakeMap]);
    LastOps(Filled(BLOCKS));
    assert NODE_PRESSURE in Lost().nodes[2].children;
    assert !HandlesOk(Lost().nodes[2].children, 3);
  }
}
