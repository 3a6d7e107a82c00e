/** The node heap as a whole: roots, collection, allocation, and the instructions that build and read nodes.

    Text is a value here; the string arena is not part of this model. */
module Heap {
  import opened Values
  import opened Graph

  const NODE_CAPACITY := 512
  const ATTR_CAPACITY := 2048
  const CHILD_CAPACITY := 4096
  const GC_INTERVAL := 64
  const NODE_PRESSURE := NODE_CAPACITY * 3 / 4
  const ATTR_PRESSURE := ATTR_CAPACITY * 3 / 4
  const CHILD_PRESSURE := CHILD_CAPACITY * 3 / 4

  /** Everything a collection starts from: the three pinned handles (0 for none), the value stack, the active
      locals, the results of completed tasks and the values of open parallel blocks. */
  datatype Roots = Roots(
    argv: int, window: int, event: int,
    stack: seq<Value>, locals: seq<Value>, tasks: seq<Value>, pars: seq<Value>)

  /** `allocs` counts allocations since the last collection. */
  datatype HeapState = HeapState(nodes: seq<NodeVal>, roots: Roots, allocs: nat)

  datatype HeapError =
    | MemoryPressure
    | InvalidProgram
    | TypeMismatch
    | StackUnderflow
    | StackOverflow
    | LocalOutOfRange
    /** A pushed node that no instruction made, a store that leaves a gap, or a template lost while boxing. */
    | NotModelled

  // ---------- roots ----------

  function Handles(vs: seq<Value>): set<int> {
    set v | v in vs && v.Node? :: v.handle
  }

  function Elements(hs: seq<int>): set<int> {
    set h | h in hs
  }

  function Starts(r: Roots, extra: seq<int>): set<int> {
    {r.argv, r.window, r.event} + Handles(r.stack) + Handles(r.locals) + Handles(r.tasks) + Handles(r.pars) +
    Elements(extra)
  }

  predicate ValueOk(v: Value, n: nat) {
    v.Node? ==> InRange(v.handle, n)
  }

  predicate ValuesOk(vs: seq<Value>, n: nat) {
    forall v :: v in vs ==> ValueOk(v, n)
  }

  predicate PinOk(h: int, n: nat) {
    h > 0 ==> InRange(h, n)
  }

  predicate RootsOk(r: Roots, n: nat) {
    && PinOk(r.argv, n) && PinOk(r.window, n) && PinOk(r.event, n)
    && ValuesOk(r.stack, n) && ValuesOk(r.locals, n) && ValuesOk(r.tasks, n) && ValuesOk(r.pars, n)
  }

  function MoveValue(live: seq<bool>, v: Value): Value {
    if v.Node? then Node(NewHandle(live, v.handle)) else v
  }

  function MoveValues(live: seq<bool>, vs: seq<Value>): (r: seq<Value>)
    ensures |r| == |vs|
  {
    seq(|vs|, i requires 0 <= i < |vs| => MoveValue(live, vs[i]))
  }

  function MovePin(live: seq<bool>, h: int): int {
    if h > 0 then NewHandle(live, h) else h
  }

  function MoveRoots(live: seq<bool>, r: Roots): Roots {
    Roots(MovePin(live, r.argv), MovePin(live, r.window), MovePin(live, r.event),
          MoveValues(live, r.stack), MoveValues(live, r.locals), MoveValues(live, r.tasks), MoveValues(live, r.pars))
  }

  // ---------- sizes ----------

  function AttrTotal(nodes: seq<NodeVal>): nat {
    if nodes == [] then 0 else AttrTotal(nodes[..|nodes| - 1]) + |nodes[|nodes| - 1].attrs|
  }

  function ChildTotal(nodes: seq<NodeVal>): nat {
    if nodes == [] then 0 else ChildTotal(nodes[..|nodes| - 1]) + |nodes[|nodes| - 1].children|
  }

  /** There is room for `n` behind `nodes`. */
  predicate Fits(nodes: seq<NodeVal>, n: NodeVal) {
    && |nodes| + 1 <= NODE_CAPACITY
    && AttrTotal(nodes) + |n.attrs| <= ATTR_CAPACITY
    && ChildTotal(nodes) + |n.children| <= CHILD_CAPACITY
  }

  // ---------- collection and allocation ----------

  ghost function LiveFor(s: HeapState, extra: seq<int>): (live: seq<bool>)
    ensures |live| == |s.nodes|
  {
    LiveOf(s.nodes, Starts(s.roots, extra))
  }

  /** A compaction, and the renaming of the incoming children behind it, meets no dangling handle. */
  ghost predicate Collectable(s: HeapState, extra: seq<int>) {
    && HandlesOk(extra, |s.nodes|)
    && (s.nodes != [] ==> RootsOk(s.roots, |s.nodes|) && LiveClosed(s.nodes, LiveFor(s, extra)))
  }

  predicate LiveClosed(nodes: seq<NodeVal>, live: seq<bool>)
    requires |live| == |nodes|
  {
    forall i :: 0 <= i < |nodes| && live[i] ==> HandlesOk(nodes[i].children, |nodes|)
  }

  /** compact_node_arenas_with_map.  An empty heap is left alone. */
  ghost function Collected(s: HeapState, extra: seq<int>): HeapState {
    if s.nodes == [] then s
    else var live := LiveFor(s, extra); HeapState(Slide(s.nodes, live, |s.nodes|), MoveRoots(live, s.roots), s.allocs)
  }

  /** should_attempt_proactive_node_gc */
  predicate Pressure(s: HeapState, n: NodeVal) {
    s.allocs >= GC_INTERVAL &&
    (|| |s.nodes| >= NODE_PRESSURE
     || AttrTotal(s.nodes) + |n.attrs| >= ATTR_PRESSURE
     || ChildTotal(s.nodes) + |n.children| >= CHILD_PRESSURE)
  }

  datatype Outcome = Created(s: HeapState, handle: int) | Refused(e: HeapError)

  function Append(s: HeapState, n: NodeVal): HeapState {
    HeapState(s.nodes + [n], s.roots, s.allocs + 1)
  }

  /** A node record fits the buffers its callers build it in. */
  predicate Buildable(n: NodeVal) {
    |n.attrs| <= ATTR_CAPACITY && |n.children| <= CHILD_CAPACITY
  }

  /** create_node_record: collect if pressure asks for it, collect if there is no room, then append. */
  ghost function Create(s: HeapState, n: NodeVal): Outcome {
    if !Pressure(s, n) then Place(s, n)
    else if !Collectable(s, n.children) then Refused(InvalidProgram)
    else Place(Collected(s, n.children).(allocs := 0), Renamed(n, LiveFor(s, n.children)))
  }

  ghost function Place(s: HeapState, n: NodeVal): Outcome {
    if Fits(s.nodes, n) then Created(Append(s, n), |s.nodes| + 1)
    else if !Collectable(s, n.children) then Refused(InvalidProgram)
    else
      var t := Collected(s, n.children).(allocs := 0);
      if Fits(t.nodes, n) then Created(Append(t, Renamed(n, LiveFor(s, n.children))), |t.nodes| + 1)
      else Refused(MemoryPressure)
  }

  // ---------- the invariant ----------

  /** No dangling handle anywhere, and the tables hold the nodes. */
  ghost predicate Sound(s: HeapState) {
    && Closed(s.nodes) && RootsOk(s.roots, |s.nodes|)
    && |s.nodes| <= NODE_CAPACITY
    && AttrTotal(s.nodes) <= ATTR_CAPACITY && ChildTotal(s.nodes) <= CHILD_CAPACITY
  }

  lemma {:induction false} RootStarts(r: Roots, extra: seq<int>, v: Value)
    requires v in r.stack || v in r.locals || v in r.tasks || v in r.pars
    ensures v.Node? ==> v.handle in Starts(r, extra)
  {
    if v.Node? {
      if v in r.stack {
        assert v.handle in Handles(r.stack);
      } else if v in r.locals {
        assert v.handle in Handles(r.locals);
      } else if v in r.tasks {
        assert v.handle in Handles(r.tasks);
      } else {
        assert v.handle in Handles(r.pars);
      }
    }
  }

  /** Every value a root holds survives. */
  lemma {:induction false} RootLive(s: HeapState, extra: seq<int>, v: Value)
    requires v in s.roots.stack || v in s.roots.locals || v in s.roots.tasks || v in s.roots.pars
    requires ValueOk(v, |s.nodes|)
    ensures v.Node? ==> LiveFor(s, extra)[v.handle - 1]
  {
    RootStarts(s.roots, extra, v);
    if v.Node? {
      StartReachable(s.nodes, Starts(s.roots, extra), v.handle);
    }
  }

  lemma {:induction false} PinLive(s: HeapState, extra: seq<int>, h: int)
    requires h == s.roots.argv || h == s.roots.window || h == s.roots.event || h in extra
    requires InRange(h, |s.nodes|)
    ensures LiveFor(s, extra)[h - 1]
  {
    StartReachable(s.nodes, Starts(s.roots, extra), h);
  }

  lemma {:induction false} ExtraMoved(s: HeapState, extra: seq<int>)
    requires HandlesOk(extra, |s.nodes|)
    ensures HandlesOk(NewHandles(LiveFor(s, extra), extra), Count(LiveFor(s, extra), |s.nodes|))
  {
    forall h | h in extra
      ensures LiveFor(s, extra)[h - 1]
    {
      PinLive(s, extra, h);
    }
    NewHandlesOk(LiveFor(s, extra), extra);
  }

  lemma {:induction false} ValuesMoved(s: HeapState, extra: seq<int>, vs: seq<Value>)
    requires forall v :: v in vs ==> v in s.roots.stack || v in s.roots.locals || v in s.roots.tasks || v in s.roots.pars
    requires ValuesOk(vs, |s.nodes|)
    ensures ValuesOk(MoveValues(LiveFor(s, extra), vs), Count(LiveFor(s, extra), |s.nodes|))
  {
    var live := LiveFor(s, extra);
    var moved := MoveValues(live, vs);
    forall v | v in moved
      ensures ValueOk(v, Count(live, |s.nodes|))
    {
      var i :| 0 <= i < |moved| && moved[i] == v;
      assert vs[i] in vs;
      RootLive(s, extra, vs[i]);
      if vs[i].Node? {
        NewHandleOrder(live, vs[i].handle, vs[i].handle);
      }
    }
  }

  lemma {:induction false} PinMoved(s: HeapState, extra: seq<int>, h: int)
    requires h == s.roots.argv || h == s.roots.window || h == s.roots.event
    requires PinOk(h, |s.nodes|)
    ensures PinOk(MovePin(LiveFor(s, extra), h), Count(LiveFor(s, extra), |s.nodes|))
    ensures h > 0 ==> MovePin(LiveFor(s, extra), h) > 0
  {
    if h > 0 {
      PinLive(s, extra, h);
      NewHandleOrder(LiveFor(s, extra), h, h);
    }
  }

  lemma {:induction false} RootsMoved(s: HeapState, extra: seq<int>)
    requires RootsOk(s.roots, |s.nodes|)
    ensures RootsOk(MoveRoots(LiveFor(s, extra), s.roots), Count(LiveFor(s, extra), |s.nodes|))
  {
    hide LiveFor, ValuesOk, MoveValues, MovePin, PinOk;
    ValuesMoved(s, extra, s.roots.stack);
    ValuesMoved(s, extra, s.roots.locals);
    ValuesMoved(s, extra, s.roots.tasks);
    ValuesMoved(s, extra, s.roots.pars);
    PinMoved(s, extra, s.roots.argv);
    PinMoved(s, extra, s.roots.window);
    PinMoved(s, extra, s.roots.event);
  }

  /** Survivors take no more room than what was there. */
  lemma {:induction false} SlideSmaller(nodes: seq<NodeVal>, live: seq<bool>, k: nat)
    requires |live| == |nodes| && k <= |nodes|
    ensures AttrTotal(Slide(nodes, live, k)) <= AttrTotal(nodes[..k])
    ensures ChildTotal(Slide(nodes, live, k)) <= ChildTotal(nodes[..k])
    decreases k
  {
    if k != 0 {
      SlideSmaller(nodes, live, k - 1);
      TotalSnoc(nodes[..k - 1], nodes[k - 1]);
      assert nodes[..k] == nodes[..k - 1] + [nodes[k - 1]];
      if live[k - 1] {
        TotalSnoc(Slide(nodes, live, k - 1), Renamed(nodes[k - 1], live));
      }
    }
  }

  lemma {:induction false} TotalSnoc(nodes: seq<NodeVal>, n: NodeVal)
    ensures AttrTotal(nodes + [n]) == AttrTotal(nodes) + |n.attrs|
    ensures ChildTotal(nodes + [n]) == ChildTotal(nodes) + |n.children|
  {
    assert (nodes + [n])[..|nodes|] == nodes;
  }

  /** On a sound heap a compaction never fails, and leaves a sound heap. */
  lemma {:induction false} CollectSound(s: HeapState, extra: seq<int>)
    requires Sound(s) && HandlesOk(extra, |s.nodes|)
    ensures Collectable(s, extra) && Sound(Collected(s, extra))
    ensures HandlesOk(NewHandles(LiveFor(s, extra), extra), |Collected(s, extra).nodes|)
  {
    hide Closed, Slide, RootsOk, MoveRoots, AttrTotal, ChildTotal;
    ClosedAt(s.nodes);
    SlideClosed(s.nodes, Starts(s.roots, extra));
    RootsMoved(s, extra);
    SlideSmaller(s.nodes, LiveFor(s, extra), |s.nodes|);
    ExtraMoved(s, extra);
    assert s.nodes[..|s.nodes|] == s.nodes;
  }

  lemma {:induction false} ClosedAt(nodes: seq<NodeVal>)
    requires Closed(nodes)
    ensures forall i :: 0 <= i < |nodes| ==> HandlesOk(nodes[i].children, |nodes|)
  {
  }

  // ---------- a collection is exact ----------

  lemma {:induction false} StartsMoved(s: HeapState, extra: seq<int>, live: seq<bool>, h: int)
    requires h in Starts(s.roots, extra) && h > 0
    ensures NewHandle(live, h) in Starts(MoveRoots(live, s.roots), NewHandles(live, extra))
  {
    var r, m := s.roots, MoveRoots(live, s.roots);
    if h in Handles(r.stack) {
      MovedHandle(live, r.stack, h);
    } else if h in Handles(r.locals) {
      MovedHandle(live, r.locals, h);
    } else if h in Handles(r.tasks) {
      MovedHandle(live, r.tasks, h);
    } else if h in Handles(r.pars) {
      MovedHandle(live, r.pars, h);
    } else if h in extra {
      var i :| 0 <= i < |extra| && extra[i] == h;
      assert NewHandles(live, extra)[i] == NewHandle(live, h);
    }
  }

  lemma {:induction false} MovedHandle(live: seq<bool>, vs: seq<Value>, h: int)
    requires h in Handles(vs)
    ensures NewHandle(live, h) in Handles(MoveValues(live, vs))
  {
    var v :| v in vs && v.Node? && v.handle == h;
    var i :| 0 <= i < |vs| && vs[i] == v;
    assert MoveValues(live, vs)[i] == Node(NewHandle(live, h));
    assert MoveValues(live, vs)[i] in MoveValues(live, vs);
  }

  /** What a collection leaves is exactly what is reachable: nothing in the new heap is garbage. */
  lemma {:induction false} CollectExact(s: HeapState, extra: seq<int>)
    requires s.nodes != []
    ensures Full(LiveFor(Collected(s, extra), NewHandles(LiveFor(s, extra), extra)))
  {
    hide LiveOf, Starts, Slide, MoveRoots, NewHandle;
    var live := LiveFor(s, extra);
    var starts, moved := Starts(s.roots, extra), Starts(MoveRoots(live, s.roots), NewHandles(live, extra));
    forall h | h in starts && InRange(h, |s.nodes|)
      ensures NewHandle(live, h) in moved
    {
      StartsMoved(s, extra, live, h);
    }
    SlideAllLive(s.nodes, starts, moved);
    var t, more := Collected(s, extra), NewHandles(live, extra);
    assert t.nodes == Slide(s.nodes, live, |s.nodes|) && t.roots == MoveRoots(live, s.roots);
    assert LiveFor(t, more) == LiveOf(t.nodes, moved);
  }

  /** A second collection changes nothing. */
  lemma {:induction false} CollectTwice(s: HeapState, extra: seq<int>)
    requires Sound(s) && HandlesOk(extra, |s.nodes|)
    ensures var t, more := Collected(s, extra), NewHandles(LiveFor(s, extra), extra);
      Collected(t, more) == t && NewHandles(LiveFor(t, more), more) == more
  {
    hide LiveFor, Slide, AttrTotal, ChildTotal;
    var t, more := Collected(s, extra), NewHandles(LiveFor(s, extra), extra);
    if s.nodes != [] {
      CollectExact(s, extra);
      CollectSound(s, extra);
      var live := LiveFor(t, more);
      SlideIdentity(t.nodes, live, |t.nodes|);
      SameHandles(live, more);
      SameRoots(live, t.roots);
      assert t.nodes[..|t.nodes|] == t.nodes;
    }
  }

  lemma {:induction false} SameRoots(live: seq<bool>, r: Roots)
    requires RootsOk(r, |live|) && Full(live)
    ensures MoveRoots(live, r) == r
  {
    hide ValuesOk, MoveValues;
    SameValues(live, r.stack);
    SameValues(live, r.locals);
    SameValues(live, r.tasks);
    SameValues(live, r.pars);
    SamePin(live, r.argv);
    SamePin(live, r.window);
    SamePin(live, r.event);
  }

  lemma {:induction false} SamePin(live: seq<bool>, h: int)
    requires PinOk(h, |live|) && Full(live)
    ensures MovePin(live, h) == h
  {
    if h > 0 {
      AllLive(live, h);
    }
  }

  lemma {:induction false} SameValues(live: seq<bool>, vs: seq<Value>)
    requires ValuesOk(vs, |live|) && Full(live)
    ensures MoveValues(live, vs) == vs
  {
    forall i | 0 <= i < |vs|
      ensures MoveValue(live, vs[i]) == vs[i]
    {
      assert vs[i] in vs;
      if vs[i].Node? {
        AllLive(live, vs[i].handle);
      }
    }
  }

  // ---------- allocation ----------

  lemma {:induction false} AppendSound(s: HeapState, n: NodeVal)
    requires Sound(s) && HandlesOk(n.children, |s.nodes|) && Fits(s.nodes, n)
    ensures Sound(Append(s, n))
  {
    hide AttrTotal, ChildTotal;
    TotalSnoc(s.nodes, n);
    var nodes := s.nodes + [n];
    forall i | 0 <= i < |nodes|
      ensures HandlesOk(nodes[i].children, |nodes|)
    {
      if i < |s.nodes| {
        assert HandlesOk(s.nodes[i].children, |s.nodes|);
      }
    }
  }

  /** Whatever the collector does on the way, allocation on a sound heap never meets a dangling handle, keeps
      the heap sound, and reports memory pressure exactly if the live nodes and the new one do not fit. */
  lemma {:induction false} CreateExact(s: HeapState, n: NodeVal)
    requires Sound(s) && HandlesOk(n.children, |s.nodes|)
    ensures Create(s, n).Refused? <==> !Fits(Collected(s, n.children).nodes, n)
    ensures Create(s, n).Refused? ==> Create(s, n).e == MemoryPressure
    ensures Create(s, n).Created? ==> Sound(Create(s, n).s) && Create(s, n).handle == |Create(s, n).s.nodes|
  {
    hide LiveFor, Sound, Collected, Collectable, AttrTotal, ChildTotal, HandlesOk;
    CollectSound(s, n.children);
    CollectSmaller(s, n.children);
    if Pressure(s, n) {
      var live := LiveFor(s, n.children);
      var t, m := Collected(s, n.children).(allocs := 0), Renamed(n, live);
      SoundAllocs(Collected(s, n.children), m.children);
      CollectTwice(s, n.children);
      CollectAllocs(Collected(s, n.children), m.children);
      PlaceExact(t, m);
    } else {
      PlaceExact(s, n);
    }
  }

  lemma {:induction false} SoundAllocs(s: HeapState, extra: seq<int>)
    requires Sound(s)
    ensures Sound(s.(allocs := 0))
  {
  }

  lemma {:induction false} CollectAllocs(s: HeapState, extra: seq<int>)
    ensures Collected(s.(allocs := 0), extra).nodes == Collected(s, extra).nodes
    ensures LiveFor(s.(allocs := 0), extra) == LiveFor(s, extra)
  {
  }

  lemma {:induction false} CollectSmaller(s: HeapState, extra: seq<int>)
    ensures |Collected(s, extra).nodes| <= |s.nodes|
    ensures AttrTotal(Collected(s, extra).nodes) <= AttrTotal(s.nodes)
    ensures ChildTotal(Collected(s, extra).nodes) <= ChildTotal(s.nodes)
  {
    SlideSmaller(s.nodes, LiveFor(s, extra), |s.nodes|);
    assert s.nodes[..|s.nodes|] == s.nodes;
  }

  lemma {:induction false} PlaceExact(s: HeapState, n: NodeVal)
    requires Sound(s) && HandlesOk(n.children, |s.nodes|)
    ensures Place(s, n).Refused? <==> !Fits(Collected(s, n.children).nodes, n)
    ensures Place(s, n).Refused? ==> Place(s, n).e == MemoryPressure
    ensures Place(s, n).Created? ==> Sound(Place(s, n).s) && Place(s, n).handle == |Place(s, n).s.nodes|
  {
    hide LiveFor, Sound, Collected, Collectable, AttrTotal, ChildTotal, HandlesOk;
    CollectSound(s, n.children);
    CollectSmaller(s, n.children);
    if Fits(s.nodes, n) {
      AppendSound(s, n);
    } else {
      var t, m := Collected(s, n.children).(allocs := 0), Renamed(n, LiveFor(s, n.children));
      SoundAllocs(Collected(s, n.children), m.children);
      if Fits(t.nodes, n) {
        AppendSound(t, m);
      }
    }
  }

  // ---------- when a collection happens ----------

  /** With room for the record no collection happens, and no handle changes, as long as fewer than 64 nodes were
      made since the last one, or all three tables are below three quarters. */
  lemma {:induction false} NoCollection(s: HeapState, n: NodeVal)
    requires |s.nodes| < 512 && AttrTotal(s.nodes) + |n.attrs| <= 2048 && ChildTotal(s.nodes) + |n.children| <= 4096
    requires
      || s.allocs < 64
      || (&& |s.nodes| < 384 && AttrTotal(s.nodes) + |n.attrs| < 1536 && ChildTotal(s.nodes) + |n.children| < 3072)
    ensures Create(s, n) == Created(HeapState(s.nodes + [n], s.roots, s.allocs + 1), |s.nodes| + 1)
  {
    hide AttrTotal, ChildTotal, Collectable, Collected, LiveFor, Renamed;
  }

  /** Otherwise one does, whether the record would fit or not: what is left beside the new node is reachable from
      the roots and the new node's children, and the count starts again. */
  lemma {:induction false} Collection(s: HeapState, n: NodeVal)
    requires Sound(s) && s.nodes != [] && HandlesOk(n.children, |s.nodes|)
    requires s.allocs >= 64
    requires |s.nodes| >= 384 || AttrTotal(s.nodes) + |n.attrs| >= 1536 || ChildTotal(s.nodes) + |n.children| >= 3072
    requires Create(s, n).Created?
    ensures var t := Create(s, n).s; var before := t.(nodes := t.nodes[..|t.nodes| - 1]);
      t.allocs == 1 && t.nodes != [] && Full(LiveFor(before, t.nodes[|t.nodes| - 1].children))
  {
    hide AttrTotal, ChildTotal, LiveFor, Collected, Sound, Fits;
    CollectSound(s, n.children);
    CollectExact(s, n.children);
    var live := LiveFor(s, n.children);
    var c, m := Collected(s, n.children).(allocs := 0), Renamed(n, live);
    CollectAllocs(Collected(s, n.children), m.children);
    SoundAllocs(Collected(s, n.children), m.children);
    CollectTwice(s, n.children);
    CollectAllocs(Collected(s, n.children), m.children);
    assert Create(s, n) == Place(c, m);
    SecondIdle(c, m, Place(c, m));
    var t := Create(s, n).s;
    var before := t.(nodes := t.nodes[..|t.nodes| - 1]);
    assert before.(allocs := 0) == c;
    CollectAllocs(before, m.children);
  }

  /** Right behind a collection nothing is left for a second one to do. */
  lemma {:induction false} SecondIdle(c: HeapState, m: NodeVal, o: Outcome)
    requires o == Place(c, m) && o.Created? && c.allocs == 0
    requires Fits(c.nodes, m) || (Collected(c, m.children).nodes == c.nodes)
    requires Full(LiveFor(c, m.children))
    ensures o.s.allocs == 1 && o.s.nodes == c.nodes + [m] && o.s.roots == c.roots
  {
    hide LiveFor, Collected, Collectable;
  }
}
