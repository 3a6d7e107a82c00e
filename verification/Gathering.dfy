/** Handles that an instruction holds in C locals while it goes on allocating.  MAKE_MAP and MAKE_NODE pop
    their operands, box the plain ones one after the other, and pass all the handles on at the end.  The
    instruction does what it should exactly if no collection on the way changes the name of a held handle. */
module Gathering {
  import opened Values
  import opened Graph
  import opened Heap
  import opened HeapOps
  import opened Refinement

  /** The name of `h` after the collections that making room for `n` runs, 0 if it names nothing any more. */
  ghost function NameAfter(s: HeapState, n: NodeVal, h: int): int {
    if !Pressure(s, n) then PlaceName(s, n, h)
    else
      var live := LiveFor(s, n.children);
      PlaceName(Collected(s, n.children).(allocs := 0), Renamed(n, live), NewHandle(live, h))
  }

  ghost function PlaceName(s: HeapState, n: NodeVal, h: int): int {
    if Fits(s.nodes, n) then h else NewHandle(LiveFor(s, n.children), h)
  }

  ghost predicate NamesKept(s: HeapState, n: NodeVal, handles: seq<int>) {
    forall k :: 0 <= k < |handles| ==> NameAfter(s, n, handles[k]) == handles[k]
  }

  /** While the operands are boxed no held handle changes its name. */
  ghost predicate Steady(s: HeapState, count: nat, handles: seq<int>)
    decreases count
  {
    count == 0 || Stack(s) == [] ||
    var v, t := Top(s, 0), Drop(s, 1);
    if v.Node? then Steady(t, count - 1, [v.handle] + handles)
    else
      match Create(t, Boxed(v))
      case Refused(_) => true
      case Created(u, h) => NamesKept(t, Boxed(v), handles) && Steady(u, count - 1, [h] + handles)
  }

  /** And the template's slot still reads the same. */
  ghost predicate SteadyGather(s: HeapState, template: Template, count: nat) {
    && Steady(s, count, [])
    && match BoxAll(s, count, [])
       case Held(u, handles) => ShapeOf(u.nodes, template, handles) == ShapeOf(s.nodes, template, handles)
       case Unheld(_) => true
  }

  // ---------- held handles against the unbounded heap ----------

  /** The held handle `h` still names the node that the unbounded heap knows as `x`. */
  predicate Good(ren: seq<int>, h: int, x: int) {
    Ren(ren, h) == x
  }

  /** It does not, and never will again: if that node is still there its name is smaller. */
  ghost predicate Bad(ren: seq<int>, h: int, x: int) {
    forall o {:trigger ren[o - 1]} :: InRange(o, |ren|) && h <= o ==> ren[o - 1] != x
  }

  ghost predicate Judged(ren: seq<int>, h: int, x: int) {
    h >= 1 && x >= 1 && (Good(ren, h, x) || Bad(ren, h, x))
  }

  predicate AllGood(ren: seq<int>, hs: seq<int>, xs: seq<int>)
    requires |hs| == |xs|
  {
    forall k :: 0 <= k < |hs| ==> Good(ren, hs[k], xs[k])
  }

  ghost predicate AllJudged(ren: seq<int>, hs: seq<int>, xs: seq<int>, n: nat)
    requires |hs| == |xs|
  {
    forall k :: 0 <= k < |hs| ==> Judged(ren, hs[k], xs[k]) && xs[k] <= n
  }

  function GoodHandles(ren: seq<int>, hs: seq<int>, xs: seq<int>): set<int>
    requires |hs| == |xs|
  {
    set k | 0 <= k < |hs| && Good(ren, hs[k], xs[k]) :: hs[k]
  }

  /** Everything in the heap is reached from the roots or from a held handle that is still good. */
  ghost predicate Anchored(s: HeapState, ren: seq<int>, hs: seq<int>, xs: seq<int>)
    requires |hs| == |xs|
  {
    forall h :: InRange(h, |s.nodes|) ==> Reachable(s.nodes, Starts(s.roots, []) + GoodHandles(ren, hs, xs), h)
  }

  ghost predicate Holding(s: HeapState, d: HeapState, ren: seq<int>, hs: seq<int>, xs: seq<int>) {
    && Sound(s) && Related(s, d, ren)
    && |hs| == |xs| && AllJudged(ren, hs, xs, |d.nodes|)
    && (AllGood(ren, hs, xs) || Anchored(s, ren, hs, xs))
  }

  lemma {:induction false} BadNotGood(ren: seq<int>, h: int, x: int)
    requires h >= 1 && x >= 1 && Bad(ren, h, x)
    ensures !Good(ren, h, x)
  {
    if InRange(h, |ren|) {
      assert ren[h - 1] != x;
    }
  }

  lemma {:induction false} ReachMore(nodes: seq<NodeVal>, a: set<int>, b: set<int>, h: int)
    requires Reachable(nodes, a, h) && a <= b
    ensures Reachable(nodes, b, h)
  {
    var path :| WalkTo(nodes, a, h, path);
    assert WalkTo(nodes, b, h, path);
  }

  // ---------- a node operand ----------

  /** A node operand leaves the stack and is held from then on. */
  lemma {:induction false} HoldNode(s: HeapState, d: HeapState, ren: seq<int>, hs: seq<int>, xs: seq<int>)
    requires Holding(s, d, ren, hs, xs) && Stack(s) != [] && Top(s, 0).Node?
    ensures |Stack(d)| == |Stack(s)|
    ensures var h := Top(s, 0).handle;
      && Top(d, 0) == Node(Ren(ren, h))
      && Holding(Drop(s, 1), Drop(d, 1), ren, [h] + hs, [Ren(ren, h)] + xs)
      && (AllGood(ren, [h] + hs, [Ren(ren, h)] + xs) <==> AllGood(ren, hs, xs))
  {
    hide Sound, Related, Good, Bad;
    Pair(s, d, ren);
    TopRelated(s, d, ren, 0);
    DropRelated(s, d, ren, 1);
    var h := Top(s, 0).handle;
    var x := Ren(ren, h);
    OperandGood(s, d, ren, h);
    JudgedCons(ren, hs, xs, h, x, |d.nodes|);
    if Anchored(s, ren, hs, xs) {
      hide Starts;
      OneStart(s, h);
      var a, b := Starts(s.roots, []) + GoodHandles(ren, hs, xs),
        Starts(Drop(s, 1).roots, []) + GoodHandles(ren, [h] + hs, [x] + xs);
      forall z | InRange(z, |s.nodes|)
        ensures Reachable(s.nodes, b, z)
      {
        ReachMore(s.nodes, a, b, z);
      }
    }
  }

  /** A plain operand leaves the stack. */
  lemma {:induction false} HoldDrop(s: HeapState, d: HeapState, ren: seq<int>, hs: seq<int>, xs: seq<int>)
    requires Holding(s, d, ren, hs, xs) && Stack(s) != [] && !Top(s, 0).Node?
    ensures |Stack(d)| == |Stack(s)| && Top(d, 0) == Top(s, 0)
    ensures Holding(Drop(s, 1), Drop(d, 1), ren, hs, xs)
  {
    hide Sound, Related, Good, Bad;
    Pair(s, d, ren);
    TopRelated(s, d, ren, 0);
    DropRelated(s, d, ren, 1);
    if Anchored(s, ren, hs, xs) {
      hide Starts;
      NoStart(s);
      var a, b := Starts(s.roots, []) + GoodHandles(ren, hs, xs),
        Starts(Drop(s, 1).roots, []) + GoodHandles(ren, hs, xs);
      forall z | InRange(z, |s.nodes|)
        ensures Reachable(s.nodes, b, z)
      {
        ReachMore(s.nodes, a, b, z);
      }
    }
  }

  lemma {:induction false} NoStart(s: HeapState)
    requires Stack(s) != [] && !Top(s, 0).Node?
    ensures Starts(s.roots, []) <= Starts(Drop(s, 1).roots, [])
  {
    var n := |Stack(s)| - 1;
    forall g | g in Handles(Stack(s))
      ensures g in Handles(Stack(s)[..n])
    {
      var v :| v in Stack(s) && v.Node? && v.handle == g;
      var i :| 0 <= i < |Stack(s)| && Stack(s)[i] == v;
      assert Stack(s)[..n][i] == v;
    }
  }

  lemma {:induction false} OperandGood(s: HeapState, d: HeapState, ren: seq<int>, h: int)
    requires Related(s, d, ren) && InRange(h, |s.nodes|)
    ensures Good(ren, h, Ren(ren, h)) && 1 <= Ren(ren, h) <= |d.nodes|
  {
    hide NodesRelated, RootsRelated;
  }

  lemma {:induction false} OneStart(s: HeapState, h: int)
    requires Stack(s) != [] && Top(s, 0) == Node(h)
    ensures Starts(s.roots, []) <= Starts(Drop(s, 1).roots, []) + {h}
  {
    var n := |Stack(s)| - 1;
    forall g | g in Handles(Stack(s))
      ensures g in Handles(Stack(s)[..n]) || g == h
    {
      var v :| v in Stack(s) && v.Node? && v.handle == g;
      var i :| 0 <= i < |Stack(s)| && Stack(s)[i] == v;
      if i < n {
        assert Stack(s)[..n][i] == v;
      }
    }
  }

  lemma {:induction false} JudgedCons(ren: seq<int>, hs: seq<int>, xs: seq<int>, h: int, x: int, n: nat)
    requires |hs| == |xs| && AllJudged(ren, hs, xs, n) && Good(ren, h, x) && h >= 1 && 1 <= x <= n
    ensures AllJudged(ren, [h] + hs, [x] + xs, n)
    ensures AllGood(ren, [h] + hs, [x] + xs) <==> AllGood(ren, hs, xs)
    ensures GoodHandles(ren, [h] + hs, [x] + xs) == GoodHandles(ren, hs, xs) + {h}
  {
    hide Good, Bad;
    GoodCons(ren, hs, xs, h, x);
    var gs, ys := [h] + hs, [x] + xs;
    forall k | 0 <= k < |gs|
      ensures Judged(ren, gs[k], ys[k]) && ys[k] <= n
    {
      if k > 0 {
        assert gs[k] == hs[k - 1] && ys[k] == xs[k - 1];
      }
    }
  }

  lemma {:induction false} GoodCons(ren: seq<int>, hs: seq<int>, xs: seq<int>, h: int, x: int)
    requires |hs| == |xs| && Good(ren, h, x)
    ensures AllGood(ren, [h] + hs, [x] + xs) <==> AllGood(ren, hs, xs)
    ensures GoodHandles(ren, [h] + hs, [x] + xs) == GoodHandles(ren, hs, xs) + {h}
  {
    hide Good;
    var gs, ys := [h] + hs, [x] + xs;
    forall k | 0 <= k < |gs|
      ensures k > 0 ==> gs[k] == hs[k - 1] && ys[k] == xs[k - 1]
    {
    }
    if AllGood(ren, gs, ys) {
      forall k | 0 <= k < |hs|
        ensures Good(ren, hs[k], xs[k])
      {
        assert Good(ren, gs[k + 1], ys[k + 1]);
      }
    }
    forall g | g in GoodHandles(ren, hs, xs)
      ensures g in GoodHandles(ren, gs, ys)
    {
      var k :| 0 <= k < |hs| && Good(ren, hs[k], xs[k]) && hs[k] == g;
      assert Good(ren, gs[k + 1], ys[k + 1]) && gs[k + 1] == g;
    }
    forall g | g in GoodHandles(ren, gs, ys)
      ensures g in GoodHandles(ren, hs, xs) + {h}
    {
      var k :| 0 <= k < |gs| && Good(ren, gs[k], ys[k]) && gs[k] == g;
      if k > 0 {
        assert Good(ren, hs[k - 1], xs[k - 1]) && hs[k - 1] == g;
      }
    }
    assert Good(ren, gs[0], ys[0]) && gs[0] == h;
  }

  // ---------- a collection ----------

  lemma {:induction false} NewHandleSmaller(live: seq<bool>, h: int)
    requires h >= 0
    ensures 0 <= NewHandle(live, h) <= h
  {
  }

  /** What a collection makes of one held handle. */
  lemma {:induction false} JudgeKept(ren: seq<int>, live: seq<bool>, m: nat, h: int, x: int)
    requires |live| == |ren| && Injection(ren, m) && Judged(ren, h, x)
    ensures var kept := Kept(ren, live, |live|);
      Judged(kept, h, x) && (Good(kept, h, x) <==> Good(ren, h, x) && NewHandle(live, h) == h)
  {
    var kept := Kept(ren, live, |live|);
    KeptInjection(ren, live, m);
    forall o | InRange(o, |kept|) && h <= o && kept[o - 1] == x
      ensures Good(ren, h, x) && NewHandle(live, h) == h == o
    {
      var was := OldHandle(live, |live|, o);
      KeptAt(ren, live, |live|, was);
      assert ren[was - 1] == x && h <= was;
      assert Good(ren, h, x);
    }
    if Good(ren, h, x) && NewHandle(live, h) == h {
      KeptName(ren, live, h);
    } else {
      assert Bad(kept, h, x);
      BadNotGood(kept, h, x);
    }
  }

  lemma {:induction false} HoldCollect(
    s: HeapState, d: HeapState, ren: seq<int>, hs: seq<int>, xs: seq<int>, allocs: nat)
    requires Holding(s, d, ren, hs, xs)
    ensures var live := LiveFor(s, []); var kept := Kept(ren, live, |live|);
      && Holding(Collected(s, []).(allocs := allocs), d, kept, hs, xs)
      && forall k :: 0 <= k < |hs| ==>
           (Good(kept, hs[k], xs[k]) <==> Good(ren, hs[k], xs[k]) && NewHandle(live, hs[k]) == hs[k])
  {
    hide Sound, Related, Good, Bad, LiveFor, Collected, Kept, NewHandle, Starts;
    var live, t := LiveFor(s, []), Collected(s, []).(allocs := allocs);
    RelatedLength(s, d, ren);
    var kept := Kept(ren, live, |live|);
    RelatedInjection(s, d, ren);
    CollectSound(s, []);
    SoundAllocs(Collected(s, []), []);
    SoundAnyAllocs(Collected(s, []), allocs);
    CollectRelated(s, [], d, ren);
    forall k | 0 <= k < |hs|
      ensures Judged(kept, hs[k], xs[k])
      ensures Good(kept, hs[k], xs[k]) <==> Good(ren, hs[k], xs[k]) && NewHandle(live, hs[k]) == hs[k]
    {
      JudgeKept(ren, live, |d.nodes|, hs[k], xs[k]);
    }
    forall h | InRange(h, |t.nodes|)
      ensures Reachable(t.nodes, Starts(t.roots, []) + GoodHandles(kept, hs, xs), h)
    {
      CollectedReached(s, h);
      ReachMore(t.nodes, Starts(t.roots, []), Starts(t.roots, []) + GoodHandles(kept, hs, xs), h);
    }
  }

  lemma {:induction false} SoundAnyAllocs(s: HeapState, allocs: nat)
    requires Sound(s)
    ensures Sound(s.(allocs := allocs))
  {
    hide AttrTotal, ChildTotal, Closed, RootsOk;
  }

  lemma {:induction false} RelatedInjection(s: HeapState, d: HeapState, ren: seq<int>)
    requires Related(s, d, ren)
    ensures Injection(ren, |d.nodes|)
  {
  }

  lemma {:induction false} CollectedReached(s: HeapState, h: int)
    requires InRange(h, |Collected(s, []).nodes|)
    ensures var t := Collected(s, []); Reachable(t.nodes, Starts(t.roots, []), h)
  {
    hide Slide, Starts;
    if s.nodes != [] {
      CollectExact(s, []);
      assert NewHandles(LiveFor(s, []), []) == [];
      assert LiveFor(Collected(s, []), [])[h - 1];
    }
  }

  // ---------- a box ----------

  lemma {:induction false} JudgeLonger(ren: seq<int>, y: int, h: int, x: int)
    requires Judged(ren, h, x) && x < y
    ensures Judged(ren + [y], h, x) && (Good(ren + [y], h, x) <==> Good(ren, h, x))
  {
    if Bad(ren, h, x) {
      var longer := ren + [y];
      forall o {:trigger longer[o - 1]} | InRange(o, |longer|) && h <= o
        ensures longer[o - 1] != x
      {
        assert o <= |ren| ==> longer[o - 1] == ren[o - 1];
      }
      BadNotGood(ren, h, x);
      BadNotGood(ren + [y], h, x);
    }
  }

  lemma {:induction false} HoldAppend(
    s: HeapState, d: HeapState, ren: seq<int>, hs: seq<int>, xs: seq<int>, n: NodeVal)
    requires Holding(s, d, ren, hs, xs) && n.children == [] && Fits(s.nodes, n)
    ensures var longer, y := ren + [|d.nodes| + 1], |d.nodes| + 1;
      && Holding(Append(s, n), Append(d, n), longer, [|s.nodes| + 1] + hs, [y] + xs)
      && Good(longer, |s.nodes| + 1, y)
      && forall k :: 0 <= k < |hs| ==> (Good(longer, hs[k], xs[k]) <==> Good(ren, hs[k], xs[k]))
  {
    hide Sound, Related, Bad, Good, Starts, Fits;
    var h, y := |s.nodes| + 1, |d.nodes| + 1;
    var longer := ren + [y];
    RelatedLength(s, d, ren);
    AppendSound(s, n);
    assert RenNode(ren, n) == n;
    AppendRelated(s, d, ren, n);
    forall k | 0 <= k < |hs|
      ensures Judged(longer, hs[k], xs[k]) && (Good(longer, hs[k], xs[k]) <==> Good(ren, hs[k], xs[k]))
    {
      JudgeLonger(ren, y, hs[k], xs[k]);
    }
    LastGood(ren, y);
    JudgedCons(longer, hs, xs, h, y, y);
    if Anchored(s, ren, hs, xs) {
      var t := Append(s, n);
      var b := Starts(t.roots, []) + GoodHandles(longer, [h] + hs, [y] + xs);
      SameGood(ren, longer, hs, xs);
      forall z | InRange(z, |t.nodes|)
        ensures Reachable(t.nodes, b, z)
      {
        if z == h {
          StartReachable(t.nodes, b, z);
        } else {
          ReachAppend(s.nodes, n, Starts(s.roots, []) + GoodHandles(ren, hs, xs), z);
          ReachMore(t.nodes, Starts(s.roots, []) + GoodHandles(ren, hs, xs), b, z);
        }
      }
    }
  }

  lemma {:induction false} LastGood(ren: seq<int>, y: int)
    ensures Good(ren + [y], |ren| + 1, y)
  {
  }

  lemma {:induction false} SameGood(ren: seq<int>, longer: seq<int>, hs: seq<int>, xs: seq<int>)
    requires |hs| == |xs|
    requires forall k :: 0 <= k < |hs| ==> (Good(longer, hs[k], xs[k]) <==> Good(ren, hs[k], xs[k]))
    ensures GoodHandles(longer, hs, xs) == GoodHandles(ren, hs, xs)
  {
    hide Good;
  }

  lemma {:induction false} ReachAppend(nodes: seq<NodeVal>, n: NodeVal, starts: set<int>, h: int)
    requires Reachable(nodes, starts, h)
    ensures Reachable(nodes + [n], starts, h)
  {
    var path :| WalkTo(nodes, starts, h, path);
    assert WalkTo(nodes + [n], starts, h, path);
  }

  lemma {:induction false} HoldPlace(
    s: HeapState, d: HeapState, ren: seq<int>, hs: seq<int>, xs: seq<int>, n: NodeVal) returns (ren': seq<int>)
    requires Holding(s, d, ren, hs, xs) && n.children == [] && Place(s, n).Created?
    ensures Holding(Place(s, n).s, Append(d, n), ren', [Place(s, n).handle] + hs, [|d.nodes| + 1] + xs)
    ensures Good(ren', Place(s, n).handle, |d.nodes| + 1)
    ensures forall k :: 0 <= k < |hs| ==>
      (Good(ren', hs[k], xs[k]) <==> Good(ren, hs[k], xs[k]) && PlaceName(s, n, hs[k]) == hs[k])
  {
    hide Holding, Good, LiveFor, Collected, Collectable, Fits, Kept, NewHandle, Append;
    if Fits(s.nodes, n) {
      HoldAppend(s, d, ren, hs, xs, n);
      ren' := ren + [|d.nodes| + 1];
    } else {
      var live, t := LiveFor(s, []), Collected(s, []).(allocs := 0);
      HoldingLength(s, d, ren, hs, xs);
      var kept := Kept(ren, live, |live|);
      LeafRenamed(n, live);
      HoldCollect(s, d, ren, hs, xs, 0);
      HoldAppend(t, d, kept, hs, xs, n);
      ren' := kept + [|d.nodes| + 1];
    }
  }

  lemma {:induction false} HoldingLength(s: HeapState, d: HeapState, ren: seq<int>, hs: seq<int>, xs: seq<int>)
    requires Holding(s, d, ren, hs, xs)
    ensures |ren| == |s.nodes|
  {
  }

  lemma {:induction false} LeafRenamed(n: NodeVal, live: seq<bool>)
    requires n.children == []
    ensures Renamed(n, live) == n
  {
    assert NewHandles(live, []) == [];
  }

  /** A box is allocated and held. */
  lemma {:induction false} HoldCreate(
    s: HeapState, d: HeapState, ren: seq<int>, hs: seq<int>, xs: seq<int>, n: NodeVal) returns (ren': seq<int>)
    requires Holding(s, d, ren, hs, xs) && n.children == [] && Create(s, n).Created?
    ensures Holding(Create(s, n).s, Append(d, n), ren', [Create(s, n).handle] + hs, [|d.nodes| + 1] + xs)
    ensures Good(ren', Create(s, n).handle, |d.nodes| + 1)
    ensures forall k :: 0 <= k < |hs| ==>
      (Good(ren', hs[k], xs[k]) <==> Good(ren, hs[k], xs[k]) && NameAfter(s, n, hs[k]) == hs[k])
  {
    hide Good, LiveFor, Collected, Collectable, Place, Kept, NewHandle, PlaceName, Sound, Related, Anchored, Append;
    if Pressure(s, n) {
      var live, t := LiveFor(s, []), Collected(s, []).(allocs := 0);
      HoldingLength(s, d, ren, hs, xs);
      var kept := Kept(ren, live, |live|);
      LeafRenamed(n, live);
      HoldCollect(s, d, ren, hs, xs, 0);
      ren' := HoldPlace(t, d, kept, hs, xs, n);
      forall k | 0 <= k < |hs|
        ensures NameAfter(s, n, hs[k]) == hs[k] <==>
          NewHandle(live, hs[k]) == hs[k] && PlaceName(t, n, hs[k]) == hs[k]
      {
        NewHandleSmaller(live, hs[k]);
        PlaceNameSmaller(t, n, NewHandle(live, hs[k]));
      }
    } else {
      ren' := HoldPlace(s, d, ren, hs, xs, n);
    }
  }

  lemma {:induction false} PlaceNameSmaller(s: HeapState, n: NodeVal, h: int)
    requires h >= 0
    ensures 0 <= PlaceName(s, n, h) <= h
  {
    hide LiveFor, Fits, NewHandle;
    NewHandleSmaller(LiveFor(s, n.children), h);
  }

  // ---------- all operands ----------

  lemma {:induction false} CreateStack(s: HeapState, n: NodeVal)
    ensures Create(s, n).Created? ==> |Stack(Create(s, n).s)| == |Stack(s)|
  {
    hide LiveFor, Collectable, Fits, Pressure, Slide;
  }

  lemma {:induction false} BoxedSound(s: HeapState, n: NodeVal)
    requires Sound(s) && n.children == []
    ensures Create(s, n).Refused? ==> Create(s, n).e == MemoryPressure
  {
    hide Sound, Create, Collected, Fits;
    CreateExact(s, n);
  }

  lemma {:induction false} KeptGood(
    s: HeapState, n: NodeVal, ren: seq<int>, ren': seq<int>, hs: seq<int>, xs: seq<int>)
    requires |hs| == |xs|
    requires forall k :: 0 <= k < |hs| ==>
      (Good(ren', hs[k], xs[k]) <==> Good(ren, hs[k], xs[k]) && NameAfter(s, n, hs[k]) == hs[k])
    ensures AllGood(ren', hs, xs) <==> AllGood(ren, hs, xs) && NamesKept(s, n, hs)
  {
    hide Good, NameAfter;
  }

  lemma {:induction false} GoodLast(ren: seq<int>, hs: seq<int>, xs: seq<int>, h: int, x: int)
    requires |hs| == |xs|
    ensures AllGood(ren, [h] + hs, [x] + xs) <==> AllGood(ren, hs, xs) && Good(ren, h, x)
  {
    hide Good;
    var gs, ys := [h] + hs, [x] + xs;
    forall k | 0 <= k < |gs|
      ensures k > 0 ==> gs[k] == hs[k - 1] && ys[k] == xs[k - 1]
    {
    }
    if AllGood(ren, gs, ys) {
      assert Good(ren, gs[0], ys[0]);
      forall k | 0 <= k < |hs|
        ensures Good(ren, hs[k], xs[k])
      {
        assert Good(ren, gs[k + 1], ys[k + 1]);
      }
    }
  }

  /** What boxing left behind, against what the unbounded heap has. */
  ghost predicate BoxedAlike(d: HeapState, b: Boxes, i: Boxes, ren: seq<int>, steady: bool, room: nat) {
    match b
    case Unheld(e) => e == MemoryPressure
    case Held(u, hs) =>
      && i.Held? && d.nodes <= i.s.nodes && |Stack(u)| == room
      && Holding(u, i.s, ren, hs, i.handles)
      && (AllGood(ren, hs, i.handles) <==> steady)
  }

  /** Boxing the operands one by one: the held handles are all good exactly if none of them changed its name on
      the way. */
  lemma {:induction false} BoxAllHeld(
    s: HeapState, d: HeapState, ren: seq<int>, count: nat, hs: seq<int>, xs: seq<int>) returns (ren': seq<int>)
    requires Holding(s, d, ren, hs, xs) && count <= |Stack(s)|
    ensures BoxedAlike(d, BoxAll(s, count, hs), IdealBoxAll(d, count, xs), ren',
      AllGood(ren, hs, xs) && Steady(s, count, hs), |Stack(s)| - count)
    decreases count, 0
  {
    hide Holding, AllGood, Create, Append, NamesKept, Good, Boxed;
    ren' := ren;
    if count != 0 {
      var v, t := Top(s, 0), Drop(s, 1);
      if v.Node? {
        HoldNode(s, d, ren, hs, xs);
        ren' := BoxAllHeld(t, Drop(d, 1), ren, count - 1, [v.handle] + hs, [Ren(ren, v.handle)] + xs);
      } else {
        HoldDrop(s, d, ren, hs, xs);
        ren' := BoxStep(t, Drop(d, 1), ren, count - 1, hs, xs, v);
      }
    }
  }

  lemma {:induction false} BoxStep(
    t: HeapState, e: HeapState, ren: seq<int>, count: nat, hs: seq<int>, xs: seq<int>, v: Value)
    returns (ren': seq<int>)
    requires Holding(t, e, ren, hs, xs) && count <= |Stack(t)|
    ensures Create(t, Boxed(v)).Refused? ==> Create(t, Boxed(v)).e == MemoryPressure
    ensures Create(t, Boxed(v)).Created? ==>
      var u, h := Create(t, Boxed(v)).s, Create(t, Boxed(v)).handle;
      BoxedAlike(e, BoxAll(u, count, [h] + hs),
        IdealBoxAll(Append(e, Boxed(v)), count, [|e.nodes| + 1] + xs), ren',
        AllGood(ren, hs, xs) && NamesKept(t, Boxed(v), hs) && Steady(u, count, [h] + hs), |Stack(t)| - count)
    decreases count, 1
  {
    hide AllGood, Create, NamesKept, Good, Sound, Related, AllJudged, Anchored;
    BoxedSound(t, Boxed(v));
    ren' := ren;
    if Create(t, Boxed(v)).Created? {
      var u, h, y := Create(t, Boxed(v)).s, Create(t, Boxed(v)).handle, |e.nodes| + 1;
      CreateStack(t, Boxed(v));
      var ren1 := HoldCreate(t, e, ren, hs, xs, Boxed(v));
      KeptGood(t, Boxed(v), ren, ren1, hs, xs);
      GoodLast(ren1, hs, xs, h, y);
      ren' := BoxAllHeld(u, Append(e, Boxed(v)), ren1, count, [h] + hs, [y] + xs);
    }
  }

  // ---------- the node over the held handles ----------

  lemma {:induction false} GoodInRange(ren: seq<int>, m: nat, hs: seq<int>, xs: seq<int>)
    requires |hs| == |xs| && AllJudged(ren, hs, xs, m) && AllGood(ren, hs, xs)
    ensures HandlesOk(hs, |ren|) && RenHandles(ren, hs) == xs
  {
    hide Bad;
    forall h | h in hs
      ensures InRange(h, |ren|)
    {
      var k :| 0 <= k < |hs| && hs[k] == h;
      assert Good(ren, hs[k], xs[k]) && Judged(ren, hs[k], xs[k]);
    }
    forall k | 0 <= k < |hs|
      ensures Ren(ren, hs[k]) == xs[k]
    {
      assert Good(ren, hs[k], xs[k]);
    }
  }

  lemma {:induction false} AllReached(u: HeapState, ren: seq<int>, hs: seq<int>, xs: seq<int>)
    requires |hs| == |xs| && Anchored(u, ren, hs, xs)
    ensures Full(LiveFor(u, hs))
  {
    hide Good, Starts, GoodHandles, LiveFor, Reachable;
    var a, b := Starts(u.roots, []) + GoodHandles(ren, hs, xs), Starts(u.roots, hs);
    StartsHeld(u.roots, ren, hs, xs);
    forall i | 0 <= i < |u.nodes|
      ensures LiveFor(u, hs)[i]
    {
      assert InRange(i + 1, |u.nodes|);
      ReachMore(u.nodes, a, b, i + 1);
      LiveIs(u, hs, i);
    }
  }

  lemma {:induction false} LiveIs(u: HeapState, hs: seq<int>, i: nat)
    requires i < |u.nodes| && Reachable(u.nodes, Starts(u.roots, hs), i + 1)
    ensures LiveFor(u, hs)[i]
  {
    hide Starts, Reachable;
  }

  lemma {:induction false} StartsHeld(r: Roots, ren: seq<int>, hs: seq<int>, xs: seq<int>)
    requires |hs| == |xs|
    ensures Starts(r, []) + GoodHandles(ren, hs, xs) <= Starts(r, hs)
  {
    hide Good, Handles;
    forall g | g in GoodHandles(ren, hs, xs)
      ensures g in Elements(hs)
    {
      var k :| 0 <= k < |hs| && Good(ren, hs[k], xs[k]) && hs[k] == g;
      assert hs[k] in hs;
    }
  }

  /** Nothing in the heap is garbage, so a collection for the last node changes nothing. */
  lemma {:induction false} NoGarbage(u: HeapState, ren: seq<int>, hs: seq<int>, xs: seq<int>)
    requires Sound(u) && |hs| == |xs| && Anchored(u, ren, hs, xs) && HandlesOk(hs, |u.nodes|)
    ensures Collected(u, hs) == u && NewHandles(LiveFor(u, hs), hs) == hs
  {
    hide Slide, LiveFor, Anchored, Full, AttrTotal, ChildTotal, MoveRoots, NewHandles, RootsOk, HandlesOk;
    AllReached(u, ren, hs, xs);
    var live := LiveFor(u, hs);
    SlideIdentity(u.nodes, live, |u.nodes|);
    SameHandles(live, hs);
    SameRoots(live, u.roots);
    assert u.nodes[..|u.nodes|] == u.nodes;
  }

  /** An allocation over handles of which some are bad: it appends, or it fails. */
  lemma {:induction false} CreateAnchored(u: HeapState, n: NodeVal, ren: seq<int>, xs: seq<int>)
    requires Sound(u) && |n.children| == |xs| && Anchored(u, ren, n.children, xs)
    ensures Create(u, n).Created? ==>
      var t := Create(u, n).s; t.nodes == u.nodes + [n] && t.roots == u.roots && Create(u, n).handle == |u.nodes| + 1
  {
    hide Sound, Anchored, LiveFor, Collected, Fits, Pressure;
    if HandlesOk(n.children, |u.nodes|) {
      NoGarbage(u, ren, n.children, xs);
      AnchoredAllocs(u, ren, n.children, xs);
      SoundAnyAllocs(u, 0);
      NoGarbage(u.(allocs := 0), ren, n.children, xs);
      assert Renamed(n, LiveFor(u, n.children)) == n;
      assert Renamed(n, LiveFor(u.(allocs := 0), n.children)) == n;
    }
  }

  lemma {:induction false} AnchoredAllocs(u: HeapState, ren: seq<int>, hs: seq<int>, xs: seq<int>)
    requires |hs| == |xs| && Anchored(u, ren, hs, xs)
    ensures Anchored(u.(allocs := 0), ren, hs, xs)
  {
    hide Good, Starts;
  }

  /** The heap with one more node over `n`, and its handle on the stack. */
  function WithNode(u: HeapState, n: NodeVal): HeapState {
    HeapState(u.nodes + [n], u.roots.(stack := Stack(u) + [Node(|u.nodes| + 1)]), u.allocs)
  }

  lemma {:induction false} SameValues(vs: seq<Value>, ren: seq<int>, ren': seq<int>, h: int)
    requires RenValues(ren, vs) == RenValues(ren', vs) && h in Handles(vs)
    ensures Ren(ren, h) == Ren(ren', h)
  {
    var v :| v in vs && v.Node? && v.handle == h;
    var i :| 0 <= i < |vs| && vs[i] == v;
    assert RenValues(ren, vs)[i] == RenValues(ren', vs)[i];
  }

  /** Two ways of naming the same heap agree on what the roots hold. */
  lemma {:induction false} SameRootNames(
    u: HeapState, e: HeapState, n: NodeVal, m: NodeVal, ren: seq<int>, ren': seq<int>, h: int)
    requires RootsRelated(u.roots, e.roots, ren) && RootsRelated(WithNode(u, n).roots, WithNode(e, m).roots, ren')
    requires h in Starts(u.roots, []) && h > 0
    ensures Ren(ren', h) == Ren(ren, h)
  {
    hide RenValues, Ren;
    StackNames(u, e, n, m, ren, ren');
    if h in Handles(u.roots.stack) {
      SameValues(u.roots.stack, ren, ren', h);
    } else if h in Handles(u.roots.locals) {
      SameValues(u.roots.locals, ren, ren', h);
    } else if h in Handles(u.roots.tasks) {
      SameValues(u.roots.tasks, ren, ren', h);
    } else if h in Handles(u.roots.pars) {
      SameValues(u.roots.pars, ren, ren', h);
    }
  }

  lemma {:induction false} StackNames(
    u: HeapState, e: HeapState, n: NodeVal, m: NodeVal, ren: seq<int>, ren': seq<int>)
    requires Stack(e) == RenValues(ren, Stack(u))
    requires Stack(WithNode(e, m)) == RenValues(ren', Stack(WithNode(u, n)))
    ensures RenValues(ren, Stack(u)) == RenValues(ren', Stack(u))
    ensures Ren(ren', |u.nodes| + 1) == |e.nodes| + 1
  {
    var vs, ws, k := Stack(WithNode(u, n)), Stack(WithNode(e, m)), |Stack(u)|;
    assert |Stack(e)| == k;
    assert ws[k] == RenValue(ren', vs[k]);
    forall i | 0 <= i < k
      ensures RenValue(ren', Stack(u)[i]) == RenValue(ren, Stack(u)[i])
    {
      assert vs[i] == Stack(u)[i] && ws[i] == Stack(e)[i];
      assert ws[i] == RenValue(ren', vs[i]);
    }
  }

  /** The last node's children have the same names on both sides. */
  lemma {:induction false} ChildNames(
    u: HeapState, e: HeapState, n: NodeVal, m: NodeVal, ren: seq<int>, ren': seq<int>)
    requires Related(u, e, ren) && Related(WithNode(u, n), WithNode(e, m), ren')
    ensures RenNode(ren', n) == m
  {
    hide RenNode, RenValues;
    StackNames(u, e, n, m, ren, ren');
    var i := |u.nodes|;
    assert WithNode(u, n).nodes[i] == n && WithNode(e, m).nodes[ren'[i] - 1] == m;
  }

  /** The names of a node's children follow from its own. */
  lemma {:induction false} NextNames(
    u: HeapState, e: HeapState, n: NodeVal, m: NodeVal, ren: seq<int>, ren': seq<int>, h: int, c: int)
    requires Related(u, e, ren) && Related(WithNode(u, n), WithNode(e, m), ren')
    requires InRange(h, |u.nodes|) && Ren(ren', h) == Ren(ren, h) && c in u.nodes[h - 1].children
    ensures Ren(ren', c) == Ren(ren, c)
  {
    hide RenValues, Ren;
    var kids, x := u.nodes[h - 1].children, ren[h - 1];
    assert WithNode(u, n).nodes[h - 1] == u.nodes[h - 1];
    assert e.nodes[x - 1] == RenNode(ren, u.nodes[h - 1]);
    RenIs(ren, h);
    RenIs(ren', h);
    assert WithNode(e, m).nodes[x - 1] == e.nodes[x - 1];
    assert RenHandles(ren, kids) == RenHandles(ren', kids);
    var k :| 0 <= k < |kids| && kids[k] == c;
    assert RenHandles(ren, kids)[k] == RenHandles(ren', kids)[k];
  }

  lemma {:induction false} RenIs(ren: seq<int>, h: int)
    requires InRange(h, |ren|)
    ensures Ren(ren, h) == ren[h - 1]
  {
  }

  lemma {:induction false} WalkNames(
    u: HeapState, e: HeapState, n: NodeVal, m: NodeVal, ren: seq<int>, ren': seq<int>, xs: seq<int>,
    path: seq<int>, k: nat)
    requires Related(u, e, ren) && Related(WithNode(u, n), WithNode(e, m), ren')
    requires |n.children| == |xs| && m.children == xs && k < |path| && Walk(u.nodes, path)
    requires path[0] in Starts(u.roots, []) + GoodHandles(ren, n.children, xs)
    ensures Ren(ren', path[k]) == Ren(ren, path[k])
    decreases k
  {
    hide Related, Ren, Starts;
    if k > 0 {
      WalkNames(u, e, n, m, ren, ren', xs, path, k - 1);
      NextNames(u, e, n, m, ren, ren', path[k - 1], path[k]);
    } else if path[0] in Starts(u.roots, []) {
      RelatedRoots(u, e, ren);
      RelatedRoots(WithNode(u, n), WithNode(e, m), ren');
      SameRootNames(u, e, n, m, ren, ren', path[0]);
    } else {
      ChildNames(u, e, n, m, ren, ren');
      var j :| 0 <= j < |xs| && Good(ren, n.children[j], xs[j]) && n.children[j] == path[0];
      assert RenHandles(ren', n.children)[j] == xs[j];
    }
  }

  lemma {:induction false} RelatedRoots(s: HeapState, d: HeapState, ren: seq<int>)
    requires Related(s, d, ren)
    ensures RootsRelated(s.roots, d.roots, ren)
  {
  }

  /** If some renaming makes the new node's children come out right, the held handles were good. */
  lemma {:induction false} OnlyGood(
    u: HeapState, e: HeapState, n: NodeVal, m: NodeVal, ren: seq<int>, ren': seq<int>)
    requires |n.children| == |m.children| && Holding(u, e, ren, n.children, m.children)
    requires Anchored(u, ren, n.children, m.children)
    requires Related(WithNode(u, n), WithNode(e, m), ren')
    ensures AllGood(ren, n.children, m.children)
  {
    hide Sound, Related, Bad, Starts;
    var hs, xs := n.children, m.children;
    ChildNames(u, e, n, m, ren, ren');
    RelatedRoots(u, e, ren);
    RelatedRoots(WithNode(u, n), WithNode(e, m), ren');
    StackNames(u, e, n, m, ren, ren');
    RelatedLength(WithNode(u, n), WithNode(e, m), ren');
    forall k | 0 <= k < |hs|
      ensures Good(ren, hs[k], xs[k])
    {
      assert Judged(ren, hs[k], xs[k]) && xs[k] <= |e.nodes|;
      assert RenHandles(ren', hs)[k] == Ren(ren', hs[k]) == xs[k];
      assert hs[k] != |u.nodes| + 1;
      assert InRange(hs[k], |u.nodes|);
      assert Reachable(u.nodes, Starts(u.roots, []) + GoodHandles(ren, hs, xs), hs[k]);
      var path :| WalkTo(u.nodes, Starts(u.roots, []) + GoodHandles(ren, hs, xs), hs[k], path);
      WalkNames(u, e, n, m, ren, ren', xs, path, |path| - 1);
    }
  }

  // ---------- the instruction ----------

  predicate SameShape(n: NodeVal, m: NodeVal) {
    n.kind == m.kind && n.id == m.id && n.attrs == m.attrs
  }

  lemma {:induction false} CreatedLastShape(u: HeapState, n: NodeVal)
    ensures Create(u, n).Created? ==>
      var t := Create(u, n).s.nodes; t != [] && SameShape(t[|t| - 1], n) && Create(u, n).handle == |t|
  {
    hide LiveFor, Collected, Collectable, Fits, Pressure, NewHandles;
  }

  /** With every held handle good, the node comes out as on the unbounded heap. */
  lemma {:induction false} FinishGood(u: HeapState, e: HeapState, ren: seq<int>, n: NodeVal, m: NodeVal)
    returns (ren': seq<int>)
    requires |n.children| == |m.children| && Holding(u, e, ren, n.children, m.children)
    requires AllGood(ren, n.children, m.children) && SameShape(n, m)
    ensures SameResult(PushCreated(Create(u, n)), PushCreated(Created(Append(e, m), |e.nodes| + 1)), ren')
  {
    hide Sound, Related, SameResult, PushCreated, Create, Append, AllGood, AllJudged;
    RelatedLength(u, e, ren);
    GoodInRange(ren, |e.nodes|, n.children, m.children);
    assert RenNode(ren, n) == m;
    ren' := MakeRelated(u, e, ren, n);
  }

  /** And only then. */
  lemma {:induction false} FinishOnly(
    u: HeapState, e: HeapState, ren: seq<int>, n: NodeVal, m: NodeVal, ren': seq<int>)
    requires |n.children| == |m.children| && Holding(u, e, ren, n.children, m.children)
    requires |Stack(u)| < STACK_CAPACITY
    requires SameResult(PushCreated(Create(u, n)), PushCreated(Created(Append(e, m), |e.nodes| + 1)), ren')
    ensures Create(u, n) == Refused(MemoryPressure) || (AllGood(ren, n.children, m.children) && SameShape(n, m))
  {
    hide Sound, Related, Create, AllGood, AllJudged, Anchored, RenValues, LiveFor;
    StackLength(u, e, ren);
    if Create(u, n).Created? {
      var t, h := Create(u, n).s, Create(u, n).handle;
      CreateStack(u, n);
      CreatedLastShape(u, n);
      var f, g := WithStack(t, Stack(t) + [Node(h)]), WithStack(Append(e, m), Stack(e) + [Node(|e.nodes| + 1)]);
      assert Related(f, g, ren');
      LastShape(f, g, ren');
      if Anchored(u, ren, n.children, m.children) {
        CreateAnchored(u, n, ren, m.children);
        SameButAllocs(f, WithNode(u, n), g, WithNode(e, m), ren');
        OnlyGood(u, e, n, m, ren, ren');
      }
    }
  }

  lemma {:induction false} StackLength(u: HeapState, e: HeapState, ren: seq<int>)
    requires Related(u, e, ren)
    ensures |Stack(e)| == |Stack(u)|
  {
  }

  lemma {:induction false} SameButAllocs(f: HeapState, f': HeapState, g: HeapState, g': HeapState, ren: seq<int>)
    requires f.nodes == f'.nodes && f.roots == f'.roots && g.nodes == g'.nodes && g.roots == g'.roots
    requires Related(f, g, ren)
    ensures Related(f', g', ren)
  {
  }

  /** The node behind the handle on top of the stack looks the same on both sides. */
  lemma {:induction false} LastShape(f: HeapState, g: HeapState, ren: seq<int>)
    requires Related(f, g, ren) && Stack(f) != [] && Top(f, 0).Node? && InRange(Top(f, 0).handle, |f.nodes|)
    ensures |Stack(g)| == |Stack(f)| && Top(g, 0).Node? && InRange(Top(g, 0).handle, |g.nodes|)
    ensures SameShape(f.nodes[Top(f, 0).handle - 1], g.nodes[Top(g, 0).handle - 1])
  {
    var k := |Stack(f)| - 1;
    assert Stack(g)[k] == RenValue(ren, Stack(f)[k]);
  }

  /** The template looks the same on the unbounded heap, before and after boxing. */
  lemma {:induction false} IdealShape(
    c: HeapState, d: HeapState, e: HeapState, ren: seq<int>, template: Template, hs: seq<int>, xs: seq<int>)
    requires Related(c, d, ren) && TemplateOk(template, c.nodes) && d.nodes <= e.nodes
    ensures var s, i := ShapeOf(c.nodes, template, hs), ShapeOf(e.nodes, RenTemplate(ren, template), xs);
      s.Shape? && i.Shape? && SameShape(s.n, i.n) && s.n.children == hs && i.n.children == xs
  {
    match template
    case MapShape =>
    case NodeShape(h, attrs) =>
      assert d.nodes[ren[h - 1] - 1] == RenNode(ren, c.nodes[h - 1]);
      assert e.nodes[ren[h - 1] - 1] == d.nodes[ren[h - 1] - 1];
  }

  lemma {:induction false} NothingHeld(c: HeapState, d: HeapState, ren: seq<int>)
    requires Sound(c) && Related(c, d, ren)
    ensures Holding(c, d, ren, [], []) && AllGood(ren, [], [])
  {
    hide Sound, Related;
  }

  lemma {:induction false} GatheredGood(
    c: HeapState, d: HeapState, ren: seq<int>, template: Template, count: nat) returns (ren': seq<int>)
    requires Sound(c) && Related(c, d, ren) && count <= |Stack(c)| && TemplateOk(template, c.nodes)
    requires SteadyGather(c, template, count)
    ensures SameResult(Gathered(c, template, count), IdealGathered(d, RenTemplate(ren, template), count), ren')
  {
    hide Sound, Related, Holding, AllGood, Steady, BoxAll, IdealBoxAll, PushCreated, Create, Append, TemplateOk;
    NothingHeld(c, d, ren);
    var ren1 := BoxAllHeld(c, d, ren, count, [], []);
    ren' := ren1;
    match BoxAll(c, count, [])
    case Unheld(_) =>
    case Held(u, hs) =>
      var e, xs := IdealBoxAll(d, count, []).s, IdealBoxAll(d, count, []).handles;
      IdealShape(c, d, e, ren, template, hs, xs);
      HeldLengths(u, e, ren1, hs, xs);
      ren' := FinishGood(u, e, ren1, ShapeOf(u.nodes, template, hs).n, ShapeOf(e.nodes, RenTemplate(ren, template), xs).n);
  }

  lemma {:induction false} HeldLengths(u: HeapState, e: HeapState, ren: seq<int>, hs: seq<int>, xs: seq<int>)
    requires Holding(u, e, ren, hs, xs)
    ensures |hs| == |xs|
  {
  }

  /** MAKE_MAP and MAKE_NODE agree with the unbounded heap, or report memory pressure, exactly if no collection
      on the way changes the name of a held handle and the template's slot still reads the same. */
  lemma {:induction false} GatheredExact(c: HeapState, d: HeapState, ren: seq<int>, template: Template, count: nat)
    requires Sound(c) && Related(c, d, ren) && count <= |Stack(c)| && TemplateOk(template, c.nodes)
    requires |Stack(c)| - count < STACK_CAPACITY
    ensures var r, i := Gathered(c, template, count), IdealGathered(d, RenTemplate(ren, template), count);
      (exists ren' :: SameResult(r, i, ren')) <==> SteadyGather(c, template, count) || r == Halted(MemoryPressure)
  {
    hide Sound, Related, Holding, AllGood, Steady, BoxAll, IdealBoxAll, PushCreated, Create, Append, TemplateOk, ShapeOf;
    var r, i := Gathered(c, template, count), IdealGathered(d, RenTemplate(ren, template), count);
    if SteadyGather(c, template, count) {
      var ren' := GatheredGood(c, d, ren, template, count);
    } else if r == Halted(MemoryPressure) {
      assert SameResult(r, i, ren);
    } else if ren' :| SameResult(r, i, ren') {
      NothingHeld(c, d, ren);
      var ren1 := BoxAllHeld(c, d, ren, count, [], []);
      assert BoxAll(c, count, []).Held?;
      var u, hs := BoxAll(c, count, []).s, BoxAll(c, count, []).handles;
      var e, xs := IdealBoxAll(d, count, []).s, IdealBoxAll(d, count, []).handles;
      IdealShape(c, d, e, ren, template, hs, xs);
      HeldLengths(u, e, ren1, hs, xs);
      GatheredOnly(c, u, e, ren1, template, hs, ShapeOf(e.nodes, RenTemplate(ren, template), xs).n, r, ren');
      assert false;
    }
  }

  /** A result that agrees came from good handles and an intact template. */
  lemma {:induction false} GatheredOnly(
    c: HeapState, u: HeapState, e: HeapState, ren: seq<int>, template: Template, hs: seq<int>, m: NodeVal,
    r: StepResult, ren': seq<int>)
    requires Holding(u, e, ren, hs, m.children) && |Stack(u)| < STACK_CAPACITY
    requires ShapeOf(c.nodes, template, hs).Shape? && SameShape(ShapeOf(c.nodes, template, hs).n, m)
    requires r == match ShapeOf(u.nodes, template, hs)
      case Torn => Halted(NotModelled)
      case Shape(n) => PushCreated(Create(u, n))
    requires SameResult(r, PushCreated(Created(Append(e, m), |e.nodes| + 1)), ren')
    ensures r == Halted(MemoryPressure) ||
      (|hs| == |m.children| && AllGood(ren, hs, m.children)
       && ShapeOf(u.nodes, template, hs) == ShapeOf(c.nodes, template, hs))
  {
    hide Sound, Related, Create, AllGood, AllJudged, Anchored;
    StackLength(u, e, ren);
    match ShapeOf(u.nodes, template, hs)
    case Torn =>
    case Shape(n) =>
      ShapeChildren(u.nodes, template, hs);
      ShapeChildren(c.nodes, template, hs);
      FinishOnly(u, e, ren, n, m, ren');
  }

  lemma {:induction false} ShapeChildren(nodes: seq<NodeVal>, template: Template, hs: seq<int>)
    ensures ShapeOf(nodes, template, hs).Shape? ==> ShapeOf(nodes, template, hs).n.children == hs
  {
  }
}
