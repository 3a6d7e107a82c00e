/** The collecting heap refines the unbounded one: at any moment an order-preserving injection takes every
    node still in the bounded heap to the node it stands for, and the two machines do the same. */
module Refinement {
  import opened Values
  import opened Graph
  import opened Heap
  import opened HeapOps

  // ---------- renaming ----------

  function Ren(ren: seq<int>, h: int): int {
    if InRange(h, |ren|) then ren[h - 1] else 0
  }

  function RenHandles(ren: seq<int>, hs: seq<int>): (r: seq<int>)
    ensures |r| == |hs|
  {
    seq(|hs|, i requires 0 <= i < |hs| => Ren(ren, hs[i]))
  }

  function RenNode(ren: seq<int>, n: NodeVal): NodeVal {
    n.(children := RenHandles(ren, n.children))
  }

  function RenValue(ren: seq<int>, v: Value): Value {
    if v.Node? then Node(Ren(ren, v.handle)) else v
  }

  function RenValues(ren: seq<int>, vs: seq<Value>): (r: seq<Value>)
    ensures |r| == |vs|
  {
    seq(|vs|, i requires 0 <= i < |vs| => RenValue(ren, vs[i]))
  }

  /** Strictly increasing into the handles of a heap of `m` nodes. */
  predicate Injection(ren: seq<int>, m: nat) {
    && (forall i :: 0 <= i < |ren| ==> InRange(ren[i], m))
    && (forall i, j :: 0 <= i < j < |ren| ==> ren[i] < ren[j])
  }

  predicate NodesRelated(c: seq<NodeVal>, d: seq<NodeVal>, ren: seq<int>)
    requires |ren| == |c| && Injection(ren, |d|)
  {
    forall i :: 0 <= i < |c| ==> d[ren[i] - 1] == RenNode(ren, c[i])
  }

  predicate RootsRelated(c: Roots, d: Roots, ren: seq<int>) {
    && d.stack == RenValues(ren, c.stack) && d.locals == RenValues(ren, c.locals)
    && d.tasks == RenValues(ren, c.tasks) && d.pars == RenValues(ren, c.pars)
    && d.argv == RenPin(ren, c.argv) && d.window == RenPin(ren, c.window) && d.event == RenPin(ren, c.event)
  }

  function RenPin(ren: seq<int>, h: int): int {
    if h > 0 then Ren(ren, h) else h
  }

  function RenTemplate(ren: seq<int>, template: Template): Template {
    match template
    case MapShape => MapShape
    case NodeShape(h, attrs) => NodeShape(Ren(ren, h), attrs)
  }

  /** The attributes copied are those of the template. */
  predicate TemplateOk(template: Template, nodes: seq<NodeVal>) {
    match template
    case MapShape => true
    case NodeShape(h, attrs) => InRange(h, |nodes|) && attrs == nodes[h - 1].attrs
  }

  /** The unbounded heap `d` holds everything `c` does, under other names, and perhaps garbage besides. */
  predicate Related(c: HeapState, d: HeapState, ren: seq<int>) {
    && |ren| == |c.nodes| && Injection(ren, |d.nodes|)
    && NodesRelated(c.nodes, d.nodes, ren)
    && RootsRelated(c.roots, d.roots, ren)
  }

  // ---------- collection ----------

  /** The injection restricted to the survivors. */
  function Kept(ren: seq<int>, live: seq<bool>, k: nat): (r: seq<int>)
    requires |live| == |ren| && k <= |ren|
    ensures |r| == Count(live, k)
  {
    if k == 0 then []
    else if live[k - 1] then Kept(ren, live, k - 1) + [ren[k - 1]]
    else Kept(ren, live, k - 1)
  }

  lemma {:induction false} KeptAt(ren: seq<int>, live: seq<bool>, k: nat, h: int)
    requires |live| == |ren| && k <= |ren| && InRange(h, k) && live[h - 1]
    ensures InRange(Count(live, h), Count(live, k)) && Kept(ren, live, k)[Count(live, h) - 1] == ren[h - 1]
    decreases k
  {
    CountGrows(live, h - 1, h);
    CountGrows(live, h, k);
    if h < k {
      KeptAt(ren, live, k - 1, h);
    }
  }

  /** A survivor keeps its name in the unbounded heap. */
  lemma {:induction false} KeptName(ren: seq<int>, live: seq<bool>, h: int)
    requires |live| == |ren| && InRange(h, |live|) && live[h - 1]
    ensures Ren(Kept(ren, live, |live|), NewHandle(live, h)) == Ren(ren, h)
  {
    KeptAt(ren, live, |live|, h);
  }

  lemma {:induction false} KeptInjection(ren: seq<int>, live: seq<bool>, m: nat)
    requires |live| == |ren| && Injection(ren, m)
    ensures Injection(Kept(ren, live, |live|), m)
  {
    var kept := Kept(ren, live, |live|);
    forall i | 0 <= i < |kept|
      ensures InRange(kept[i], m)
    {
      var h := OldHandle(live, |live|, i + 1);
      KeptAt(ren, live, |live|, h);
    }
    forall i, j | 0 <= i < j < |kept|
      ensures kept[i] < kept[j]
    {
      var a := OldHandle(live, |live|, i + 1);
      var b := OldHandle(live, |live|, j + 1);
      KeptAt(ren, live, |live|, a);
      KeptAt(ren, live, |live|, b);
      NewHandleOrder(live, a, b);
    }
  }

  lemma {:induction false} KeptHandles(ren: seq<int>, live: seq<bool>, hs: seq<int>)
    requires |live| == |ren| && forall h :: h in hs ==> InRange(h, |live|) && live[h - 1]
    ensures RenHandles(Kept(ren, live, |live|), NewHandles(live, hs)) == RenHandles(ren, hs)
  {
    forall i | 0 <= i < |hs|
      ensures Ren(Kept(ren, live, |live|), NewHandle(live, hs[i])) == Ren(ren, hs[i])
    {
      assert hs[i] in hs;
      KeptName(ren, live, hs[i]);
    }
  }

  lemma {:induction false} KeptValues(ren: seq<int>, live: seq<bool>, vs: seq<Value>)
    requires |live| == |ren|
    requires forall v :: v in vs && v.Node? ==> InRange(v.handle, |live|) && live[v.handle - 1]
    ensures RenValues(Kept(ren, live, |live|), MoveValues(live, vs)) == RenValues(ren, vs)
  {
    forall i | 0 <= i < |vs|
      ensures RenValue(Kept(ren, live, |live|), MoveValue(live, vs[i])) == RenValue(ren, vs[i])
    {
      assert vs[i] in vs;
      if vs[i].Node? {
        KeptName(ren, live, vs[i].handle);
      }
    }
  }

  lemma {:induction false} KeptNodes(s: HeapState, extra: seq<int>, d: seq<NodeVal>, ren: seq<int>)
    requires Sound(s) && |ren| == |s.nodes| && Injection(ren, |d|) && NodesRelated(s.nodes, d, ren)
    ensures var live := LiveFor(s, extra); var kept := Kept(ren, live, |live|);
      Injection(kept, |d|) && NodesRelated(Slide(s.nodes, live, |s.nodes|), d, kept)
  {
    hide Starts, AttrTotal, ChildTotal, LiveOf;
    var live := LiveFor(s, extra);
    var kept, slid := Kept(ren, live, |live|), Slide(s.nodes, live, |s.nodes|);
    KeptInjection(ren, live, |d|);
    forall i | 0 <= i < |slid|
      ensures d[kept[i] - 1] == RenNode(kept, slid[i])
    {
      var h := OldHandle(live, |s.nodes|, i + 1);
      SlideAt(s.nodes, live, |s.nodes|, h);
      KeptAt(ren, live, |live|, h);
      var children := s.nodes[h - 1].children;
      ClosedAt(s.nodes);
      forall c | c in children
        ensures InRange(c, |live|) && live[c - 1]
      {
        LiveChildren(s.nodes, Starts(s.roots, extra), h, c);
      }
      KeptHandles(ren, live, children);
    }
  }

  lemma {:induction false} KeptRoot(s: HeapState, extra: seq<int>, vs: seq<Value>, ren: seq<int>)
    requires |ren| == |s.nodes| && ValuesOk(vs, |s.nodes|)
    requires vs == s.roots.stack || vs == s.roots.locals || vs == s.roots.tasks || vs == s.roots.pars
    ensures var live := LiveFor(s, extra);
      RenValues(Kept(ren, live, |live|), MoveValues(live, vs)) == RenValues(ren, vs)
  {
    hide LiveFor;
    forall v | v in vs && v.Node?
      ensures InRange(v.handle, |s.nodes|) && LiveFor(s, extra)[v.handle - 1]
    {
      assert ValueOk(v, |s.nodes|);
      RootLive(s, extra, v);
    }
    KeptValues(ren, LiveFor(s, extra), vs);
  }

  lemma {:induction false} KeptPin(s: HeapState, extra: seq<int>, h: int, ren: seq<int>)
    requires |ren| == |s.nodes| && PinOk(h, |s.nodes|)
    requires h == s.roots.argv || h == s.roots.window || h == s.roots.event
    ensures var live := LiveFor(s, extra); RenPin(Kept(ren, live, |live|), MovePin(live, h)) == RenPin(ren, h)
  {
    hide LiveFor;
    if h > 0 {
      PinLive(s, extra, h);
      PinMoved(s, extra, h);
      KeptName(ren, LiveFor(s, extra), h);
    }
  }

  /** A collection is invisible to the unbounded heap: it only forgets names. */
  lemma {:induction false} CollectRelated(s: HeapState, extra: seq<int>, d: HeapState, ren: seq<int>)
    requires Sound(s) && HandlesOk(extra, |s.nodes|) && Related(s, d, ren)
    ensures var live := LiveFor(s, extra); var kept := Kept(ren, live, |live|);
      && (forall a: nat :: Related(Collected(s, extra).(allocs := a), d, kept))
      && RenHandles(kept, NewHandles(live, extra)) == RenHandles(ren, extra)
  {
    hide LiveFor, NodesRelated, Slide, Kept, MoveValues, RenValues, MovePin, RenPin, AttrTotal, ChildTotal;
    var live := LiveFor(s, extra);
    KeptNodes(s, extra, d.nodes, ren);
    KeptRoot(s, extra, s.roots.stack, ren);
    KeptRoot(s, extra, s.roots.locals, ren);
    KeptRoot(s, extra, s.roots.tasks, ren);
    KeptRoot(s, extra, s.roots.pars, ren);
    KeptPin(s, extra, s.roots.argv, ren);
    KeptPin(s, extra, s.roots.window, ren);
    KeptPin(s, extra, s.roots.event, ren);
    forall h | h in extra
      ensures InRange(h, |live|) && live[h - 1]
    {
      PinLive(s, extra, h);
    }
    KeptHandles(ren, live, extra);
    if s.nodes == [] {
      NothingKept(s, d, ren, extra);
    }
  }

  lemma {:induction false} NothingKept(s: HeapState, d: HeapState, ren: seq<int>, extra: seq<int>)
    requires s.nodes == [] && Related(s, d, ren)
    ensures var live := LiveFor(s, extra); Kept(ren, live, |live|) == ren == []
  {
  }

  // ---------- allocation ----------

  lemma {:induction false} RenLonger(ren: seq<int>, more: int, hs: seq<int>)
    requires HandlesOk(hs, |ren|)
    ensures RenHandles(ren + [more], hs) == RenHandles(ren, hs)
  {
    forall i | 0 <= i < |hs|
      ensures Ren(ren + [more], hs[i]) == Ren(ren, hs[i])
    {
      assert hs[i] in hs;
    }
  }

  lemma {:induction false} ValuesLonger(ren: seq<int>, more: int, vs: seq<Value>)
    requires ValuesOk(vs, |ren|)
    ensures RenValues(ren + [more], vs) == RenValues(ren, vs)
  {
    forall i | 0 <= i < |vs|
      ensures RenValue(ren + [more], vs[i]) == RenValue(ren, vs[i])
    {
      assert vs[i] in vs;
    }
  }

  /** Appending on both sides pairs the two new nodes. */
  lemma {:induction false} AppendRelated(c: HeapState, d: HeapState, ren: seq<int>, n: NodeVal)
    requires Sound(c) && Related(c, d, ren) && HandlesOk(n.children, |c.nodes|)
    ensures Related(Append(c, n), Append(d, RenNode(ren, n)), ren + [|d.nodes| + 1])
  {
    hide RenHandles, RenValues, AttrTotal, ChildTotal;
    var longer := ren + [|d.nodes| + 1];
    var nodes, store := c.nodes + [n], d.nodes + [RenNode(ren, n)];
    ValuesLonger(ren, |d.nodes| + 1, c.roots.stack);
    ValuesLonger(ren, |d.nodes| + 1, c.roots.locals);
    ValuesLonger(ren, |d.nodes| + 1, c.roots.tasks);
    ValuesLonger(ren, |d.nodes| + 1, c.roots.pars);
    RenLonger(ren, |d.nodes| + 1, n.children);
    forall i | 0 <= i < |nodes|
      ensures store[longer[i] - 1] == RenNode(longer, nodes[i])
    {
      if i < |c.nodes| {
        assert HandlesOk(c.nodes[i].children, |c.nodes|);
        RenLonger(ren, |d.nodes| + 1, c.nodes[i].children);
        assert d.nodes[ren[i] - 1] == RenNode(ren, c.nodes[i]);
      }
    }
  }

  lemma {:induction false} PlaceRelated(c: HeapState, d: HeapState, ren: seq<int>, n: NodeVal) returns (ren': seq<int>)
    requires Sound(c) && Related(c, d, ren) && HandlesOk(n.children, |c.nodes|)
    ensures Place(c, n).Created? ==>
      && Related(Place(c, n).s, Append(d, RenNode(ren, n)), ren')
      && Ren(ren', Place(c, n).handle) == |d.nodes| + 1
  {
    hide LiveFor, Sound, Collected, Kept, NodesRelated, RootsRelated, Related, RenHandles, NewHandles, AttrTotal,
      ChildTotal;
    PlaceExact(c, n);
    RelatedLength(c, d, ren);
    if Fits(c.nodes, n) {
      AppendRelated(c, d, ren, n);
      ren' := ren + [|d.nodes| + 1];
    } else {
      var live := LiveFor(c, n.children);
      var t, m := Collected(c, n.children).(allocs := 0), Renamed(n, live);
      var kept := Kept(ren, live, |live|);
      CollectRelated(c, n.children, d, ren);
      CollectSound(c, n.children);
      SoundAllocs(Collected(c, n.children), m.children);
      assert Related(t, d, kept);
      AppendRelated(t, d, kept, m);
      RelatedLength(t, d, kept);
      assert RenNode(kept, m) == RenNode(ren, n);
      ren' := kept + [|d.nodes| + 1];
    }
  }

  lemma {:induction false} RelatedLength(c: HeapState, d: HeapState, ren: seq<int>)
    requires Related(c, d, ren)
    ensures |ren| == |c.nodes|
  {
  }

  /** Allocation on the collecting heap matches a plain append, wherever collections fall. */
  lemma {:induction false} CreateRelated(c: HeapState, d: HeapState, ren: seq<int>, n: NodeVal) returns (ren': seq<int>)
    requires Sound(c) && Related(c, d, ren) && HandlesOk(n.children, |c.nodes|)
    ensures Create(c, n).Created? ==>
      && Related(Create(c, n).s, Append(d, RenNode(ren, n)), ren')
      && Ren(ren', Create(c, n).handle) == |d.nodes| + 1
  {
    hide LiveFor, Sound, Collected, Kept, Related, RenHandles, NewHandles, Place, Pressure;
    RelatedLength(c, d, ren);
    if Pressure(c, n) {
      var live := LiveFor(c, n.children);
      var t, m := Collected(c, n.children).(allocs := 0), Renamed(n, live);
      var kept := Kept(ren, live, |live|);
      CollectRelated(c, n.children, d, ren);
      CollectSound(c, n.children);
      SoundAllocs(Collected(c, n.children), m.children);
      assert Related(t, d, kept);
      ren' := PlaceRelated(t, d, kept, m);
      assert RenNode(kept, m) == RenNode(ren, n);
    } else {
      ren' := PlaceRelated(c, d, ren, n);
    }
  }

  // ---------- instructions ----------

  predicate Paired(c: HeapState, d: HeapState, ren: seq<int>) {
    Related(c, d, ren) && ValuesOk(Stack(c), |c.nodes|) && ValuesOk(c.roots.locals, |c.nodes|)
  }

  lemma {:induction false} TopRelated(c: HeapState, d: HeapState, ren: seq<int>, k: nat)
    requires Paired(c, d, ren)
    ensures |Stack(d)| == |Stack(c)|
    ensures k < |Stack(c)| ==>
      && ValueOk(Top(c, k), |c.nodes|) && Top(d, k) == RenValue(ren, Top(c, k))
      && (Top(c, k).Node? ==> NodeOf(d, Top(d, k)) == RenNode(ren, NodeOf(c, Top(c, k))))
  {
    if k < |Stack(c)| {
      assert Top(c, k) in Stack(c);
    }
  }

  lemma {:induction false} DropRelated(c: HeapState, d: HeapState, ren: seq<int>, k: nat)
    requires Sound(c) && Related(c, d, ren) && k <= |Stack(c)|
    ensures |Stack(d)| == |Stack(c)| && Sound(Drop(c, k)) && Related(Drop(c, k), Drop(d, k), ren)
  {
    hide NodesRelated, AttrTotal, ChildTotal;
    var n := |Stack(c)| - k;
    assert RenValues(ren, Stack(c))[..n] == RenValues(ren, Stack(c)[..n]);
    forall v | v in Stack(c)[..n]
      ensures ValueOk(v, |c.nodes|)
    {
      assert v in Stack(c);
    }
  }

  /** Two actions that ask for the same thing under the renaming. */
  ghost predicate SameAction(a: Action, b: Action, ren: seq<int>) {
    match a
    case Stop(e) => b == Stop(e)
    case Next(s) => b.Next? && Sound(s) && Related(s, b.s, ren)
    case Make(s, n) =>
      && b.Make? && Sound(s) && Related(s, b.s, ren)
      && HandlesOk(n.children, |s.nodes|) && b.n == RenNode(ren, n)
    case MakeBoxed(s, box, key) =>
      b.MakeBoxed? && Sound(s) && Related(s, b.s, ren) && b.box == box && b.key == key && box.children == []
    case MakeMany(s, template, count) =>
      && b.MakeMany? && Sound(s) && Related(s, b.s, ren) && b.count == count <= |Stack(s)|
      && TemplateOk(template, s.nodes) && b.template == RenTemplate(ren, template)
  }

  lemma {:induction false} PushRelated(c: HeapState, d: HeapState, ren: seq<int>, v: Value)
    requires Sound(c) && Related(c, d, ren) && ValueOk(v, |c.nodes|)
    ensures SameAction(PushValue(c, v), PushValue(d, RenValue(ren, v)), ren)
  {
    hide NodesRelated, AttrTotal, ChildTotal;
    assert RenValues(ren, Stack(c) + [v]) == RenValues(ren, Stack(c)) + [RenValue(ren, v)];
    forall w | w in Stack(c) + [v]
      ensures ValueOk(w, |c.nodes|)
    {
    }
  }

  lemma {:induction false} Pair(c: HeapState, d: HeapState, ren: seq<int>)
    requires Sound(c) && Related(c, d, ren)
    ensures Paired(c, d, ren)
  {
  }

  lemma {:induction false} StoreRelated(c: HeapState, d: HeapState, ren: seq<int>, slot: nat)
    requires Sound(c) && Related(c, d, ren) && |Stack(c)| >= 1
    ensures |Stack(d)| >= 1 && SameAction(EvalStore(c, slot), EvalStore(d, slot), ren)
  {
    hide NodesRelated, AttrTotal, ChildTotal;
    Pair(c, d, ren);
    TopRelated(c, d, ren, 0);
    DropRelated(c, d, ren, 1);
    var v, locals := Top(c, 0), c.roots.locals;
    if slot < |locals| {
      assert RenValues(ren, locals[slot := v]) == RenValues(ren, locals)[slot := RenValue(ren, v)];
      OkUpdate(locals, slot, v, |c.nodes|);
    } else if slot == |locals| {
      assert RenValues(ren, locals + [v]) == RenValues(ren, locals) + [RenValue(ren, v)];
    }
  }

  lemma {:induction false} EnterRelated(c: HeapState, d: HeapState, ren: seq<int>, count: nat)
    requires Sound(c) && Related(c, d, ren) && |Stack(c)| >= count
    ensures |Stack(d)| >= count && SameAction(EvalEnter(c, count), EvalEnter(d, count), ren)
  {
    hide NodesRelated, AttrTotal, ChildTotal;
    DropRelated(c, d, ren, count);
    var k, locals := |Stack(c)| - count, c.roots.locals;
    var vs := Stack(c)[k..];
    assert RenValues(ren, locals + vs) == RenValues(ren, locals) + RenValues(ren, Stack(c))[k..];
    forall v | v in locals + vs
      ensures ValueOk(v, |c.nodes|)
    {
      assert v in locals || v in Stack(c);
    }
  }

  lemma {:induction false} LeaveRelated(c: HeapState, d: HeapState, ren: seq<int>, base: nat, kept: nat)
    requires Sound(c) && Related(c, d, ren)
    ensures SameAction(EvalLeave(c, base, kept), EvalLeave(d, base, kept), ren)
  {
    hide NodesRelated, AttrTotal, ChildTotal;
    var locals := c.roots.locals;
    if kept <= |locals| {
      assert RenValues(ren, locals[..kept]) == RenValues(ren, locals)[..kept];
      forall v | v in locals[..kept]
        ensures ValueOk(v, |c.nodes|)
      {
        assert v in locals;
      }
    }
  }

  lemma {:induction false} ArgsRelated(c: HeapState, d: HeapState, ren: seq<int>)
    requires Sound(c) && Related(c, d, ren)
    ensures SameAction(Eval(c, Args), Eval(d, Args), ren)
  {
    hide NodesRelated, AttrTotal, ChildTotal, PushValue;
    if c.roots.argv > 0 {
      PushRelated(c, d, ren, Node(c.roots.argv));
    }
  }

  lemma {:induction false} OkUpdate(vs: seq<Value>, i: nat, v: Value, n: nat)
    requires i < |vs| && ValuesOk(vs, n) && ValueOk(v, n)
    ensures ValuesOk(vs[i := v], n)
  {
    forall w | w in vs[i := v]
      ensures ValueOk(w, n)
    {
      var j :| 0 <= j < |vs| && vs[i := v][j] == w;
      assert j != i ==> vs[j] in vs;
    }
  }

  lemma {:induction false} GatherRelated(
    c: HeapState, d: HeapState, ren: seq<int>, template: Template, width: nat, count: nat)
    requires Sound(c) && Related(c, d, ren) && TemplateOk(template, c.nodes)
    ensures SameAction(Gather(c, template, width, count), Gather(d, RenTemplate(ren, template), width, count), ren)
  {
    hide Sound, Related, TemplateOk;
    Pair(c, d, ren);
    TopRelated(c, d, ren, 0);
  }

  lemma {:induction false} AppendChildRelated(c: HeapState, d: HeapState, ren: seq<int>)
    requires Sound(c) && Related(c, d, ren) && |Stack(c)| >= 2
    ensures |Stack(d)| >= 2 && SameAction(EvalAppendChild(c), EvalAppendChild(d), ren)
  {
    hide NodesRelated, AttrTotal, ChildTotal;
    Pair(c, d, ren);
    TopRelated(c, d, ren, 0);
    TopRelated(c, d, ren, 1);
    DropRelated(c, d, ren, 2);
    var base, child := Top(c, 1), Top(c, 0);
    if base.Node? && child.Node? {
      ClosedAt(c.nodes);
      var children := NodeOf(c, base).children;
      assert RenHandles(ren, children + [child.handle]) == RenHandles(ren, children) + [Ren(ren, child.handle)];
    }
  }

  lemma {:induction false} ChildAtRelated(c: HeapState, d: HeapState, ren: seq<int>)
    requires Sound(c) && Related(c, d, ren) && |Stack(c)| >= 2
    ensures |Stack(d)| >= 2 && SameAction(EvalChildAt(c), EvalChildAt(d), ren)
  {
    hide NodesRelated, AttrTotal, ChildTotal;
    Pair(c, d, ren);
    TopRelated(c, d, ren, 0);
    TopRelated(c, d, ren, 1);
    DropRelated(c, d, ren, 2);
    var base, index := Top(c, 1), Top(c, 0);
    if base.Node? && index.Int? && 0 <= index.n < |NodeOf(c, base).children| {
      ClosedAt(c.nodes);
      var child := NodeOf(c, base).children[index.n];
      assert child in NodeOf(c, base).children;
      PushRelated(Drop(c, 2), Drop(d, 2), ren, Node(child));
    }
  }

  lemma {:induction false} FieldRelated(c: HeapState, d: HeapState, ren: seq<int>)
    requires Sound(c) && Related(c, d, ren) && |Stack(c)| >= 2
    ensures |Stack(d)| >= 2 && SameAction(EvalMakeField(c), EvalMakeField(d), ren)
  {
    hide NodesRelated, AttrTotal, ChildTotal;
    Pair(c, d, ren);
    TopRelated(c, d, ren, 0);
    TopRelated(c, d, ren, 1);
    DropRelated(c, d, ren, 2);
    var v := Top(c, 0);
    if v.Node? {
      assert RenHandles(ren, [v.handle]) == [Ren(ren, v.handle)];
    }
  }

  /** Different handles name different nodes on both sides: node equality is stable. */
  lemma {:induction false} EqualRelated(ren: seq<int>, m: nat, a: Value, b: Value)
    requires Injection(ren, m) && ValueOk(a, |ren|) && ValueOk(b, |ren|)
    ensures RenValue(ren, a) == RenValue(ren, b) <==> a == b
  {
    if a.Node? && b.Node? && a != b {
      assert ren[a.handle - 1] != ren[b.handle - 1];
    }
  }

  lemma {:induction false} EvalRelated(c: HeapState, d: HeapState, ren: seq<int>, op: Op)
    requires Sound(c) && Related(c, d, ren)
    ensures SameAction(Eval(c, op), Eval(d, op), ren)
  {
    hide Sound, NodesRelated, RootsRelated, EvalAppendChild, EvalChildAt, EvalMakeField, Gather, EvalStore,
      EvalEnter, EvalLeave, PushValue, Answer, AttrAnswer;
    Pair(c, d, ren);
    TopRelated(c, d, ren, 0);
    if |Stack(c)| >= Arity(op) {
      TopRelated(c, d, ren, 1);
      TopRelated(c, d, ren, 2);
      TopRelated(c, d, ren, 3);
      DropRelated(c, d, ren, Arity(op));
      match op
      case AppendChild => AppendChildRelated(c, d, ren);
      case ChildAt => ChildAtRelated(c, d, ren);
      case MakeField => FieldRelated(c, d, ren);
      case Store(slot) => StoreRelated(c, d, ren, slot);
      case MakeMap =>
        if Top(c, 0).Int? && Top(c, 0).n >= 0 {
          DropRelated(c, d, ren, 1);
          GatherRelated(Drop(c, 1), Drop(d, 1), ren, MapShape, 0, Top(c, 0).n);
        }
      case MakeNode =>
        if Top(c, 0).Int? && Top(c, 0).n >= 0 && Top(c, 1).Node? {
          DropRelated(c, d, ren, 2);
          var n := NodeOf(c, Top(c, 1));
          GatherRelated(Drop(c, 2), Drop(d, 2), ren, NodeShape(Top(c, 1).handle, n.attrs), |n.attrs|, Top(c, 0).n);
        }
      case Load(slot) => LoadRelated(c, d, ren, slot);
      case Args => ArgsRelated(c, d, ren);
      case Enter(count) => EnterRelated(c, d, ren, count);
      case Leave(base, kept) => LeaveRelated(c, d, ren, base, kept);
      case _ => ReadRelated(c, d, ren, op);
    }
  }

  lemma {:induction false} LoadRelated(c: HeapState, d: HeapState, ren: seq<int>, slot: nat)
    requires Sound(c) && Related(c, d, ren)
    ensures SameAction(Eval(c, Load(slot)), Eval(d, Load(slot)), ren)
  {
    hide NodesRelated, AttrTotal, ChildTotal, PushValue;
    if slot < |c.roots.locals| {
      assert c.roots.locals[slot] in c.roots.locals;
      PushRelated(c, d, ren, c.roots.locals[slot]);
    }
  }

  lemma {:induction false} ReadRelated(c: HeapState, d: HeapState, ren: seq<int>, op: Op)
    requires Sound(c) && Related(c, d, ren) && |Stack(c)| >= Arity(op)
    requires op.MakeBlock? || op.MakeErr? || op.MakeLit? || op.Ask? || op.AskAttr? || op.Equal? || op.Push? || op.Pop?
    ensures SameAction(Eval(c, op), Eval(d, op), ren)
  {
    hide Sound, NodesRelated, RootsRelated, PushValue, KindName;
    Pair(c, d, ren);
    TopRelated(c, d, ren, 0);
    TopRelated(c, d, ren, 1);
    TopRelated(c, d, ren, 2);
    TopRelated(c, d, ren, 3);
    DropRelated(c, d, ren, Arity(op));
    var t, u := Drop(c, Arity(op)), Drop(d, Arity(op));
    match op
    case Ask(q) => AskRelated(c, d, ren, q);
    case AskAttr(q) => AskAttrRelated(c, d, ren, q);
    case Equal =>
      EqualRelated(ren, |d.nodes|, Top(c, 1), Top(c, 0));
      PushRelated(t, u, ren, Bool(Top(c, 1) == Top(c, 0)));
    case Push(v) =>
      if !v.Node? {
        assert t == c && u == d;
        PushRelated(c, d, ren, v);
      }
    case _ =>
  }

  lemma {:induction false} AskRelated(c: HeapState, d: HeapState, ren: seq<int>, q: Query)
    requires Sound(c) && Related(c, d, ren) && |Stack(c)| >= 1
    ensures SameAction(Eval(c, Ask(q)), Eval(d, Ask(q)), ren)
  {
    hide Sound, NodesRelated, RootsRelated, PushValue;
    Pair(c, d, ren);
    TopRelated(c, d, ren, 0);
    DropRelated(c, d, ren, 1);
    if Top(c, 0).Node? {
      PushRelated(Drop(c, 1), Drop(d, 1), ren, Answer(NodeOf(c, Top(c, 0)), q));
    }
  }

  lemma {:induction false} AskAttrRelated(c: HeapState, d: HeapState, ren: seq<int>, q: AttrQuery)
    requires Sound(c) && Related(c, d, ren) && |Stack(c)| >= 2
    ensures SameAction(Eval(c, AskAttr(q)), Eval(d, AskAttr(q)), ren)
  {
    hide Sound, NodesRelated, RootsRelated, PushValue, KindName;
    Pair(c, d, ren);
    TopRelated(c, d, ren, 0);
    TopRelated(c, d, ren, 1);
    DropRelated(c, d, ren, 2);
    if Top(c, 1).Node? && Top(c, 0).Int? {
      PushRelated(Drop(c, 2), Drop(d, 2), ren, AttrAnswer(NodeOf(c, Top(c, 1)), Top(c, 0).n, q));
    }
  }

  // ---------- steps and runs ----------

  /** The outcome on the collecting heap against the one on the unbounded heap. */
  ghost predicate SameResult(r: StepResult, ideal: StepResult, ren: seq<int>) {
    match r
    case Ran(s) => ideal.Ran? && Sound(s) && Related(s, ideal.s, ren)
    case Halted(e) => e == MemoryPressure || ideal == Halted(e)
  }

  lemma {:induction false} MakeRelated(c: HeapState, d: HeapState, ren: seq<int>, n: NodeVal) returns (ren': seq<int>)
    requires Sound(c) && Related(c, d, ren) && HandlesOk(n.children, |c.nodes|)
    ensures SameResult(PushCreated(Create(c, n)), PushCreated(Created(Append(d, RenNode(ren, n)), |d.nodes| + 1)), ren')
  {
    hide Sound, Related, Create, Append, PushValue;
    CreateExact(c, n);
    ren' := CreateRelated(c, d, ren, n);
    if Create(c, n).Created? {
      var t := Create(c, n).s;
      CreatedHandle(c, n);
      PushRelated(t, Append(d, RenNode(ren, n)), ren', Node(Create(c, n).handle));
    }
  }

  lemma {:induction false} CreatedHandle(c: HeapState, n: NodeVal)
    ensures Create(c, n).Created? ==> InRange(Create(c, n).handle, |Create(c, n).s.nodes|)
  {
    hide Collected, LiveFor, Collectable, Pressure, Fits;
  }

  /** Two allocations in a row: the box is an incoming child of the second one, so it survives a collection
      that falls in between. */
  lemma {:induction false} BoxRelated(c: HeapState, d: HeapState, ren: seq<int>, box: NodeVal, key: string)
    returns (ren': seq<int>)
    requires Sound(c) && Related(c, d, ren) && box.children == []
    ensures Create(c, box).Refused? ==> Create(c, box).e == MemoryPressure
    ensures Create(c, box).Created? ==>
      SameResult(
        PushCreated(Create(Create(c, box).s, FieldNode(key, Create(c, box).handle))),
        PushCreated(Created(Append(Append(d, box), FieldNode(key, |d.nodes| + 1)), |d.nodes| + 2)), ren')
  {
    hide Sound, Related, Create, Append, PushCreated;
    CreateExact(c, box);
    CreatedHandle(c, box);
    var ren1 := CreateRelated(c, d, ren, box);
    assert RenNode(ren, box) == box;
    ren' := ren1;
    if Create(c, box).Created? {
      var h := Create(c, box).handle;
      AppendLength(d, box);
      ren' := MakeRelated(Create(c, box).s, Append(d, box), ren1, FieldNode(key, h));
      assert RenHandles(ren1, [h]) == [Ren(ren1, h)];
      assert RenNode(ren1, FieldNode(key, h)) == FieldNode(key, |d.nodes| + 1);
    }
  }

  lemma {:induction false} AppendLength(s: HeapState, n: NodeVal)
    ensures |Append(s, n).nodes| == |s.nodes| + 1
  {
  }

  function Same(n: nat): seq<int> {
    seq(n, i => i + 1)
  }

  lemma {:induction false} SameHandlesRen(n: nat, hs: seq<int>)
    requires HandlesOk(hs, n)
    ensures RenHandles(Same(n), hs) == hs
  {
    forall i | 0 <= i < |hs|
      ensures Ren(Same(n), hs[i]) == hs[i]
    {
      assert hs[i] in hs;
    }
  }

  lemma {:induction false} SameValuesRen(n: nat, vs: seq<Value>)
    requires ValuesOk(vs, n)
    ensures RenValues(Same(n), vs) == vs
  {
    forall i | 0 <= i < |vs|
      ensures RenValue(Same(n), vs[i]) == vs[i]
    {
      assert vs[i] in vs;
    }
  }

  /** Both heaps start out the same. */
  lemma {:induction false} StartRelated(s: HeapState)
    requires Sound(s)
    ensures Related(s, s, Same(|s.nodes|))
  {
    hide RenHandles, RenValues, AttrTotal, ChildTotal;
    var n := |s.nodes|;
    SameValuesRen(n, s.roots.stack);
    SameValuesRen(n, s.roots.locals);
    SameValuesRen(n, s.roots.tasks);
    SameValuesRen(n, s.roots.pars);
    forall i | 0 <= i < n
      ensures s.nodes[Same(n)[i] - 1] == RenNode(Same(n), s.nodes[i])
    {
      assert HandlesOk(s.nodes[i].children, n);
      SameHandlesRen(n, s.nodes[i].children);
    }
  }
}
