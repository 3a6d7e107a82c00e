/** The node heap as it runs: flat record, attribute and child arrays, a breadth-first marker, a sliding
    compactor that renames every handle, and the allocator that calls them.  Every method is proved against
    the heap functions of Heap.dfy. */
module Collector {
  import opened Values
  import opened Graph
  import opened Heap
  import opened Flat
  import opened Marking
  import H = HeapOps
  import G = Gathering
  import A = Argv
  import D = AstDump

  datatype Status = Fine | Broken(e: HeapError)

  class Collector {
    const recs: array<Record>
    const attrs: array<Attr>
    const kids: array<int>
    var nodeCount: nat
    var attrCount: nat
    var kidCount: nat
    /** Pinned handles, 0 for none. */
    var argv: int
    var window: int
    var event: int
    var stack: seq<Value>
    var locals: seq<Value>
    var tasks: seq<Value>
    var pars: seq<Value>
    var allocs: nat
    var status: Status

    ghost predicate Valid()
      reads this`nodeCount, this`attrCount, this`kidCount, recs
    {
      && recs.Length == NODE_CAPACITY && attrs.Length == ATTR_CAPACITY && kids.Length == CHILD_CAPACITY
      && nodeCount <= NODE_CAPACITY && attrCount <= ATTR_CAPACITY && kidCount <= CHILD_CAPACITY
      && Tiles(recs[..nodeCount], attrCount, kidCount)
    }

    /** The graph the arrays hold. */
    ghost function Nodes(): (nodes: seq<NodeVal>)
      requires Valid()
      reads this`nodeCount, this`attrCount, this`kidCount, recs, attrs, kids
      ensures |nodes| == nodeCount
    {
      TilesInside(recs[..nodeCount], attrCount, kidCount);
      View(recs[..nodeCount], attrs[..attrCount], kids[..kidCount])
    }

    function Pins(): Roots
      reads this`argv, this`window, this`event, this`stack, this`locals, this`tasks, this`pars
    {
      Roots(argv, window, event, stack, locals, tasks, pars)
    }

    ghost function Abs(): (s: HeapState)
      requires Valid()
      reads this`nodeCount, this`attrCount, this`kidCount, recs, attrs, kids
      reads this`argv, this`window, this`event, this`stack, this`locals, this`tasks, this`pars, this`allocs
    {
      HeapState(Nodes(), Pins(), allocs)
    }

    constructor ()
      ensures Valid() && fresh(recs) && fresh(attrs) && fresh(kids)
      ensures Abs() == HeapState([], Roots(0, 0, 0, [], [], [], []), 0) && status == Fine
    {
      recs := new Record[NODE_CAPACITY](_ => Record("", "", 0, 0, 0, 0));
      attrs := new Attr[ATTR_CAPACITY](_ => Attr("", BoolAttr(false)));
      kids := new int[CHILD_CAPACITY](_ => 0);
      nodeCount, attrCount, kidCount := 0, 0, 0;
      argv, window, event := 0, 0, 0;
      stack, locals, tasks, pars := [], [], [], [];
      allocs, status := 0, Fine;
      new;
      assert View(recs[..0], attrs[..0], kids[..0]) == [];
    }

    // ---------- marking ----------

    /** Put an unmarked node in the queue.  Handles outside the table are ignored. */
    method Enqueue(live: array<bool>, queue: array<int>, write: nat, h: int, ghost starts: set<int>) returns (w: nat)
      requires Valid() && live.Length == queue.Length == NODE_CAPACITY && write <= NODE_CAPACITY
      requires Marked(Nodes(), starts, live[..nodeCount], queue[..write])
      requires InRange(h, nodeCount) ==> Reachable(Nodes(), starts, h)
      modifies live, queue
      ensures Valid() && Abs() == old(Abs())
      ensures write <= w <= NODE_CAPACITY && queue[..write] == old(queue[..write])
      ensures Marked(Nodes(), starts, live[..nodeCount], queue[..w])
      ensures Wider(old(live[..nodeCount]), live[..nodeCount])
      ensures InRange(h, nodeCount) ==> live[h - 1]
    {
      w := write;
      if 0 < h <= nodeCount && !live[h - 1] {
        MarkOne(Nodes(), starts, live[..nodeCount], queue[..write], h);
        live[h - 1] := true;
        queue[w] := h;
        w := w + 1;
        assert live[..nodeCount] == old(live[..nodeCount])[h - 1 := true];
        assert queue[..w] == old(queue[..write]) + [h];
      }
    }

    /** Put the nodes of a list of values in the queue. */
    method EnqueueValues(live: array<bool>, queue: array<int>, write: nat, vs: seq<Value>, ghost starts: set<int>)
      returns (w: nat)
      requires Valid() && live.Length == queue.Length == NODE_CAPACITY && write <= NODE_CAPACITY
      requires Marked(Nodes(), starts, live[..nodeCount], queue[..write])
      requires Handles(vs) <= starts
      modifies live, queue
      ensures Valid() && Abs() == old(Abs())
      ensures write <= w <= NODE_CAPACITY
      ensures Marked(Nodes(), starts, live[..nodeCount], queue[..w])
      ensures Wider(old(live[..nodeCount]), live[..nodeCount])
      ensures StartsLive(Handles(vs), live[..nodeCount])
    {
      hide Marked, Wider, ValuesLive, Tiles, View, Reachable, StartsLive;
      w := write;
      WiderSelf(live[..nodeCount]);
      NoValues(live[..nodeCount]);
      var i := 0;
      while i < |vs|
        invariant 0 <= i <= |vs| && write <= w <= NODE_CAPACITY
        invariant Valid() && Abs() == old(Abs())
        invariant Marked(Nodes(), starts, live[..nodeCount], queue[..w])
        invariant Wider(old(live[..nodeCount]), live[..nodeCount])
        invariant ValuesLive(vs[..i], live[..nodeCount])
      {
        ghost var before := live[..nodeCount];
        if vs[i].Node? {
          assert vs[i] in vs;
          assert vs[i].handle in Handles(vs);
          if InRange(vs[i].handle, nodeCount) {
            StartReachable(Nodes(), starts, vs[i].handle);
          }
          w := Enqueue(live, queue, w, vs[i].handle, starts);
          WiderTrans(old(live[..nodeCount]), before, live[..nodeCount]);
        } else {
          WiderSelf(before);
        }
        LiveSnoc(vs, i, before, live[..nodeCount]);
        i := i + 1;
      }
      assert vs[..i] == vs;
      HandlesLive(vs, live[..nodeCount]);
    }

    static lemma {:induction false} HandlesLive(vs: seq<Value>, live: seq<bool>)
      requires ValuesLive(vs, live)
      ensures StartsLive(Handles(vs), live)
    {
      forall h | h in Handles(vs) && InRange(h, |live|)
        ensures live[h - 1]
      {
        var v :| v in vs && v.Node? && v.handle == h;
        assert ValueLive(v, live);
      }
    }

    static predicate StartsLive(starts: set<int>, live: seq<bool>) {
      forall s :: s in starts && InRange(s, |live|) ==> live[s - 1]
    }

    static lemma {:induction false} StartsMore(done: set<int>, more: set<int>, before: seq<bool>, now: seq<bool>)
      requires StartsLive(done, before) && Wider(before, now) && StartsLive(more, now)
      ensures StartsLive(done + more, now)
    {
    }

    static predicate ValueLive(v: Value, live: seq<bool>) {
      v.Node? && InRange(v.handle, |live|) ==> live[v.handle - 1]
    }

    static predicate ValuesLive(vs: seq<Value>, live: seq<bool>) {
      forall v :: v in vs ==> ValueLive(v, live)
    }

    static lemma {:induction false} LiveSnoc(vs: seq<Value>, i: nat, before: seq<bool>, live: seq<bool>)
      requires i < |vs| && ValuesLive(vs[..i], before) && Wider(before, live) && ValueLive(vs[i], live)
      ensures ValuesLive(vs[..i + 1], live)
    {
      forall v | v in vs[..i + 1]
        ensures ValueLive(v, live)
      {
        if v in vs[..i] {
          assert ValueLive(v, before);
        }
      }
    }

    /** Put the incoming children in the queue; one beyond the table is an error. */
    method EnqueueExtra(live: array<bool>, queue: array<int>, write: nat, extra: seq<int>, ghost starts: set<int>)
      returns (ok: bool, w: nat)
      requires Valid() && live.Length == queue.Length == NODE_CAPACITY && write <= NODE_CAPACITY
      requires Marked(Nodes(), starts, live[..nodeCount], queue[..write])
      requires Elements(extra) <= starts
      modifies live, queue, this`status
      ensures Valid() && Abs() == old(Abs())
      ensures ok <==> forall h :: h in extra ==> h <= nodeCount
      ensures status == if ok then old(status) else Broken(InvalidProgram)
      ensures ok ==> write <= w <= NODE_CAPACITY
      ensures ok ==> Marked(Nodes(), starts, live[..nodeCount], queue[..w])
      ensures ok ==> Wider(old(live[..nodeCount]), live[..nodeCount])
      ensures ok ==> StartsLive(Elements(extra), live[..nodeCount])
    {
      hide Marked, Wider, ChildrenIn, Tiles, View, Reachable, StartsLive;
      w := write;
      WiderSelf(live[..nodeCount]);
      NoChildren(live[..nodeCount]);
      var i := 0;
      while i < |extra|
        invariant 0 <= i <= |extra| && write <= w <= NODE_CAPACITY
        invariant Valid() && Abs() == old(Abs()) && status == old(status)
        invariant forall j :: 0 <= j < i ==> extra[j] <= nodeCount
        invariant Marked(Nodes(), starts, live[..nodeCount], queue[..w])
        invariant Wider(old(live[..nodeCount]), live[..nodeCount])
        invariant ChildrenIn(extra[..i], live[..nodeCount])
      {
        var h := extra[i];
        assert h in extra;
        ghost var before := live[..nodeCount];
        if h > nodeCount {
          status := Broken(InvalidProgram);
          return false, w;
        }
        if h > 0 {
          assert h in Elements(extra);
          StartReachable(Nodes(), starts, h);
          w := Enqueue(live, queue, w, h, starts);
          WiderTrans(old(live[..nodeCount]), before, live[..nodeCount]);
        } else {
          WiderSelf(before);
        }
        ChildSnoc(extra, i, before, live[..nodeCount]);
        i := i + 1;
      }
      assert extra[..i] == extra;
      ElementsLive(extra, live[..nodeCount]);
      ok := true;
    }

    static lemma {:induction false} ElementsLive(hs: seq<int>, live: seq<bool>)
      requires ChildrenIn(hs, live)
      ensures StartsLive(Elements(hs), live)
    {
    }

    static lemma {:induction false} ChildSnoc(hs: seq<int>, i: nat, before: seq<bool>, live: seq<bool>)
      requires i < |hs| && ChildrenIn(hs[..i], before) && Wider(before, live)
      requires InRange(hs[i], |live|) ==> live[hs[i] - 1]
      ensures ChildrenIn(hs[..i + 1], live)
    {
      forall h | h in hs[..i + 1] && InRange(h, |live|)
        ensures live[h - 1]
      {
        assert h in hs[..i] || h == hs[i];
      }
    }

    /** Put the children of one node in the queue. */
    method ScanNode(live: array<bool>, queue: array<int>, write: nat, handle: int, ghost starts: set<int>) returns (w: nat)
      requires Valid() && live.Length == queue.Length == NODE_CAPACITY && write <= NODE_CAPACITY
      requires Marked(Nodes(), starts, live[..nodeCount], queue[..write])
      requires InRange(handle, nodeCount) && Reachable(Nodes(), starts, handle)
      modifies live, queue
      ensures Valid() && Abs() == old(Abs())
      ensures write <= w <= NODE_CAPACITY && queue[..write] == old(queue[..write])
      ensures Marked(Nodes(), starts, live[..nodeCount], queue[..w])
      ensures Wider(old(live[..nodeCount]), live[..nodeCount])
      ensures ChildrenIn(Nodes()[handle - 1].children, live[..nodeCount])
    {
      hide Marked, Wider, ChildrenIn, Tiles, View, Reachable;
      w := write;
      var r := recs[handle - 1];
      ghost var children := Nodes()[handle - 1].children;
      KidsOf(handle);
      NoChildren(live[..nodeCount]);
      WiderSelf(live[..nodeCount]);
      var i := 0;
      while i < r.kidCount
        invariant 0 <= i <= r.kidCount && write <= w <= NODE_CAPACITY && queue[..write] == old(queue[..write])
        invariant Valid() && Abs() == old(Abs())
        invariant Marked(Nodes(), starts, live[..nodeCount], queue[..w])
        invariant Wider(old(live[..nodeCount]), live[..nodeCount])
        invariant ChildrenIn(children[..i], live[..nodeCount])
      {
        var c := kids[r.kidStart + i];
        assert c == children[i] && c in children;
        ghost var before, queued := live[..nodeCount], queue[..w];
        if InRange(c, nodeCount) {
          ChildReachable(Nodes(), starts, handle, c);
        }
        w := Enqueue(live, queue, w, c, starts);
        assert queue[..write] == queued[..write];
        WiderTrans(old(live[..nodeCount]), before, live[..nodeCount]);
        ChildSnoc(children, i, before, live[..nodeCount]);
        i := i + 1;
      }
      assert children[..i] == children;
    }

    static lemma {:induction false} NoValues(live: seq<bool>)
      ensures ValuesLive([], live)
    {
    }

    static lemma {:induction false} NoChildren(live: seq<bool>)
      ensures ChildrenIn([], live)
    {
    }

    static lemma {:induction false} WiderSelf(live: seq<bool>)
      ensures Wider(live, live)
    {
    }

    lemma {:induction false} KidsOf(handle: int)
      requires Valid() && InRange(handle, nodeCount)
      ensures var r := recs[handle - 1];
        && r.attrStart + r.attrCount <= attrCount && r.kidStart + r.kidCount <= kidCount
        && Nodes()[handle - 1] == NodeVal(r.kind, r.id,
             attrs[r.attrStart..r.attrStart + r.attrCount], kids[r.kidStart..r.kidStart + r.kidCount])
    {
      TilesAt(recs[..nodeCount], attrCount, kidCount, handle - 1);
      var r := recs[handle - 1];
      assert attrs[..attrCount][r.attrStart..r.attrStart + r.attrCount] == attrs[r.attrStart..r.attrStart + r.attrCount];
      assert kids[..kidCount][r.kidStart..r.kidStart + r.kidCount] == kids[r.kidStart..r.kidStart + r.kidCount];
    }

    static lemma {:induction false} NoneScanned(nodes: seq<NodeVal>, live: seq<bool>, queue: seq<int>)
      ensures Scanned(nodes, live, queue, 0)
    {
    }

    static lemma {:induction false} ScannedNext(nodes: seq<NodeVal>, live: seq<bool>, queue: seq<int>, read: nat)
      requires read < |queue| && Scanned(nodes, live, queue, read) && InRange(queue[read], |nodes|)
      requires ChildrenIn(nodes[queue[read] - 1].children, live)
      ensures Scanned(nodes, live, queue, read + 1)
    {
    }

    static lemma {:induction false} StartsWider(starts: set<int>, before: seq<bool>, now: seq<bool>)
      requires StartsLive(starts, before) && Wider(before, now)
      ensures StartsLive(starts, now)
    {
    }

    /** Follow children until the queue is empty. */
    method ScanQueue(live: array<bool>, queue: array<int>, write: nat, ghost starts: set<int>)
      requires Valid() && live.Length == queue.Length == NODE_CAPACITY && write <= NODE_CAPACITY
      requires Marked(Nodes(), starts, live[..nodeCount], queue[..write])
      requires StartsLive(starts, live[..nodeCount])
      modifies live, queue
      ensures Valid() && Abs() == old(Abs())
      ensures live[..nodeCount] == LiveOf(Nodes(), starts)
    {
      hide Wider, ChildrenIn, Tiles, View, Reachable, StartsLive, Scanned;
      var read, w := 0, write;
      WiderSelf(live[..nodeCount]);
      NoneScanned(Nodes(), live[..nodeCount], queue[..w]);
      while read < w
        invariant 0 <= read <= w <= NODE_CAPACITY
        invariant Valid() && Abs() == old(Abs())
        invariant Marked(Nodes(), starts, live[..nodeCount], queue[..w])
        invariant Scanned(Nodes(), live[..nodeCount], queue[..w], read)
        invariant Wider(old(live[..nodeCount]), live[..nodeCount])
        decreases NODE_CAPACITY - read
      {
        var h := queue[read];
        assert h == queue[..w][read] && h in queue[..w];
        ghost var before, queued := live[..nodeCount], queue[..w];
        w := ScanNode(live, queue, w, h, starts);
        assert queue[..w][..|queued|] == queued;
        ScannedWider(Nodes(), before, live[..nodeCount], queued, queue[..w], read);
        WiderTrans(old(live[..nodeCount]), before, live[..nodeCount]);
        assert queue[..w][read] == h;
        ScannedNext(Nodes(), live[..nodeCount], queue[..w], read);
        read := read + 1;
      }
      StartsWider(starts, old(live[..nodeCount]), live[..nodeCount]);
      MarkDone(Nodes(), starts, live[..nodeCount], queue[..w]);
    }

    /** mark_live_node_handles: afterwards exactly the nodes reachable from the roots and the incoming children
        are live. */
    method Mark(extra: seq<int>) returns (ok: bool, live: array<bool>)
      requires Valid()
      modifies this`status
      ensures Valid() && Abs() == old(Abs())
      ensures ok <==> forall h :: h in extra ==> h <= nodeCount
      ensures status == if ok then old(status) else Broken(InvalidProgram)
      ensures fresh(live) && live.Length == NODE_CAPACITY
      ensures ok ==> live[..nodeCount] == LiveFor(Abs(), extra)
    {
      hide Marked, Wider, StartsLive, LiveOf, Handles, Tiles, View;
      live := new bool[NODE_CAPACITY](_ => false);
      var queue := new int[NODE_CAPACITY];
      ghost var starts := Starts(Pins(), extra);
      NothingMarked(Nodes(), starts, live[..nodeCount]);
      assert queue[..0] == [];
      var w := 0;
      w := EnqueuePin(live, queue, w, argv, starts);
      ghost var done, marks := {argv}, live[..nodeCount];
      w := EnqueuePin(live, queue, w, window, starts);
      StartsMore(done, {window}, marks, live[..nodeCount]);
      done, marks := done + {window}, live[..nodeCount];
      w := EnqueuePin(live, queue, w, event, starts);
      StartsMore(done, {event}, marks, live[..nodeCount]);
      done, marks := done + {event}, live[..nodeCount];
      w := EnqueueValues(live, queue, w, stack, starts);
      StartsMore(done, Handles(stack), marks, live[..nodeCount]);
      done, marks := done + Handles(stack), live[..nodeCount];
      w := EnqueueValues(live, queue, w, locals, starts);
      StartsMore(done, Handles(locals), marks, live[..nodeCount]);
      done, marks := done + Handles(locals), live[..nodeCount];
      w := EnqueueValues(live, queue, w, tasks, starts);
      StartsMore(done, Handles(tasks), marks, live[..nodeCount]);
      done, marks := done + Handles(tasks), live[..nodeCount];
      w := EnqueueValues(live, queue, w, pars, starts);
      StartsMore(done, Handles(pars), marks, live[..nodeCount]);
      done, marks := done + Handles(pars), live[..nodeCount];
      ok, w := EnqueueExtra(live, queue, w, extra, starts);
      if !ok {
        return;
      }
      StartsMore(done, Elements(extra), marks, live[..nodeCount]);
      assert done + Elements(extra) == starts;
      ScanQueue(live, queue, w, starts);
    }

    static lemma {:induction false} NothingMarked(nodes: seq<NodeVal>, starts: set<int>, live: seq<bool>)
      requires |live| == |nodes| && forall i :: 0 <= i < |live| ==> !live[i]
      ensures Marked(nodes, starts, live, [])
    {
    }

    method EnqueuePin(live: array<bool>, queue: array<int>, write: nat, h: int, ghost starts: set<int>) returns (w: nat)
      requires Valid() && live.Length == queue.Length == NODE_CAPACITY && write <= NODE_CAPACITY
      requires Marked(Nodes(), starts, live[..nodeCount], queue[..write]) && h in starts
      modifies live, queue
      ensures Valid() && Abs() == old(Abs())
      ensures write <= w <= NODE_CAPACITY
      ensures Marked(Nodes(), starts, live[..nodeCount], queue[..w])
      ensures Wider(old(live[..nodeCount]), live[..nodeCount])
      ensures StartsLive({h}, live[..nodeCount])
    {
      if InRange(h, nodeCount) {
        StartReachable(Nodes(), starts, h);
      }
      w := Enqueue(live, queue, write, h, starts);
    }

    // ---------- compaction ----------

    /** The handle map: the rank of every survivor, 0 for the rest. */
    method Rank(live: array<bool>) returns (handleMap: array<int>)
      requires Valid() && live.Length == NODE_CAPACITY
      ensures fresh(handleMap) && IsMap(handleMap, live[..nodeCount])
    {
      handleMap := new int[NODE_CAPACITY + 1](_ => 0);
      var rank, i := 0, 0;
      while i < nodeCount
        invariant 0 <= i <= nodeCount && rank == Count(live[..nodeCount], i)
        invariant forall h :: 0 <= h <= i ==> handleMap[h] == NewHandle(live[..nodeCount], h)
        invariant forall h :: i < h <= NODE_CAPACITY ==> handleMap[h] == 0
      {
        if live[i] {
          rank := rank + 1;
          handleMap[i + 1] := rank;
        }
        i := i + 1;
      }
    }

    static ghost predicate IsMap(handleMap: array<int>, live: seq<bool>)
      reads handleMap
    {
      handleMap.Length == NODE_CAPACITY + 1 && forall h :: 0 <= h <= NODE_CAPACITY ==> handleMap[h] == NewHandle(live, h)
    }

    /** A handle the map knows. */
    static function Mapped(handleMap: array<int>, h: int): bool
      requires handleMap.Length == NODE_CAPACITY + 1
      reads handleMap
    {
      0 < h <= NODE_CAPACITY && handleMap[h] > 0
    }

    static lemma {:induction false} MappedIs(handleMap: array<int>, live: seq<bool>, h: int)
      requires IsMap(handleMap, live) && |live| <= NODE_CAPACITY
      ensures Mapped(handleMap, h) <==> InRange(h, |live|) && live[h - 1]
      ensures Mapped(handleMap, h) ==> handleMap[h] == NewHandle(live, h)
    {
      if InRange(h, |live|) && live[h - 1] {
        NewHandleOrder(live, h, h);
      }
    }

    method CopyAttrs(from: nat, n: nat, dst: array<Attr>, to: nat)
      requires from + n <= attrs.Length && to + n <= dst.Length && dst != attrs
      modifies dst
      ensures dst[..to + n] == old(dst[..to]) + attrs[from..from + n]
    {
      var i := 0;
      while i < n
        invariant 0 <= i <= n
        invariant dst[..to + i] == old(dst[..to]) + attrs[from..from + i]
      {
        dst[to + i] := attrs[from + i];
        assert dst[..to + i + 1] == dst[..to + i] + [attrs[from + i]];
        assert attrs[from..from + i + 1] == attrs[from..from + i] + [attrs[from + i]];
        i := i + 1;
      }
    }

    static predicate Survive(hs: seq<int>, live: seq<bool>) {
      forall h :: h in hs ==> InRange(h, |live|) && live[h - 1]
    }

    static lemma {:induction false} SurviveOk(children: seq<int>, live: seq<bool>)
      requires ChildrenIn(children, live)
      ensures Survive(children, live) <==> HandlesOk(children, |live|)
    {
    }

    /** Copy renamed children; a child without a new handle is an error. */
    method CopyKids(from: nat, n: nat, dst: array<int>, to: nat, handleMap: array<int>, ghost live: seq<bool>)
      returns (ok: bool)
      requires Valid() && from + n <= kids.Length && to + n <= dst.Length && dst != kids && dst != handleMap
      requires |live| == nodeCount && IsMap(handleMap, live)
      modifies dst, this`status
      ensures ok <==> Survive(kids[from..from + n], live)
      ensures ok ==> dst[..to + n] == old(dst[..to]) + NewHandles(live, kids[from..from + n])
      ensures status == if ok then old(status) else Broken(InvalidProgram)
    {
      var i := 0;
      ghost var all := kids[from..from + n];
      while i < n
        invariant 0 <= i <= n && status == old(status) && IsMap(handleMap, live)
        invariant dst[..to + i] == old(dst[..to]) + NewHandles(live, all[..i])
        invariant Survive(all[..i], live)
      {
        var h := kids[from + i];
        assert h == all[i] && h in all;
        MappedIs(handleMap, live, h);
        if !Mapped(handleMap, h) {
          status := Broken(InvalidProgram);
          return false;
        }
        dst[to + i] := handleMap[h];
        assert dst[..to + i + 1] == dst[..to + i] + [handleMap[h]];
        assert all[..i + 1] == all[..i] + [h];
        assert NewHandles(live, all[..i] + [h]) == NewHandles(live, all[..i]) + [NewHandle(live, h)];
        i := i + 1;
      }
      assert all[..n] == all;
      ok := true;
    }

    /** The new arrays hold the survivors among the first `i` nodes. */
    ghost predicate Slid(
      live: seq<bool>, i: nat, r: array<Record>, a: array<Attr>, k: array<int>, nr: nat, na: nat, nk: nat)
      requires Valid() && |live| == nodeCount && i <= nodeCount
      reads this`nodeCount, this`attrCount, this`kidCount, recs, attrs, kids, r, a, k
    {
      && nr <= r.Length && na <= a.Length && nk <= k.Length
      && Holds(r[..nr], a[..na], k[..nk], Slide(Nodes(), live, i))
    }

    lemma {:induction false} HeldNodes()
      requires Valid()
      ensures Holds(recs[..nodeCount], attrs[..attrCount], kids[..kidCount], Nodes())
    {
      TilesInside(recs[..nodeCount], attrCount, kidCount);
    }

    /** Copy one survivor behind the others. */
    method SlideOne(
      i: nat, handleMap: array<int>, ghost live: seq<bool>,
      r: array<Record>, a: array<Attr>, k: array<int>, nr: nat, na: nat, nk: nat)
      returns (ok: bool)
      requires Valid() && i < nodeCount && |live| == nodeCount && live[i] && IsMap(handleMap, live)
      requires r.Length == NODE_CAPACITY && a.Length == ATTR_CAPACITY && k.Length == CHILD_CAPACITY
      requires r != recs && a != attrs && k != kids && k != handleMap
      requires Slid(live, i, r, a, k, nr, na, nk)
      requires ChildrenIn(Nodes()[i].children, live)
      modifies r, a, k, this`status
      ensures ok <==> HandlesOk(Nodes()[i].children, nodeCount)
      ensures status == if ok then old(status) else Broken(InvalidProgram)
      ensures Valid() && Nodes() == old(Nodes())
      ensures ok ==> Slid(live, i + 1, r, a, k, nr + 1, na + recs[i].attrCount, nk + recs[i].kidCount)
    {
      hide Tiles, View, Slide, AttrTotal, ChildTotal, Holds, NewHandles, IsMap, HandlesOk, ChildrenIn, Survive;
      var o := recs[i];
      HeldNodes();
      SurviveOk(Nodes()[i].children, live);
      RoomToSlide(recs[..nodeCount], attrs[..attrCount], kids[..kidCount], Nodes(), live, i);
      HoldsTotals(r[..nr], a[..na], k[..nk], Slide(Nodes(), live, i));
      CountGrows(live, i, nodeCount);
      CountGrows(live, i, i + 1);
      assert nr < NODE_CAPACITY;
      KidsOf(i + 1);
      ghost var node, slid := Nodes()[i], Slide(Nodes(), live, i);
      r[nr] := Record(o.kind, o.id, na, o.attrCount, nk, o.kidCount);
      CopyAttrs(o.attrStart, o.attrCount, a, na);
      ok := CopyKids(o.kidStart, o.kidCount, k, nk, handleMap, live);
      if ok {
        assert r[..nr + 1] == old(r[..nr]) + [r[nr]];
        Snoc(Nodes(), live, i, old(r[..nr]), old(a[..na]), old(k[..nk]), slid, r[nr]);
      }
    }

    /** One more survivor. */
    static lemma {:induction false} Snoc(
      nodes: seq<NodeVal>, live: seq<bool>, i: nat,
      r: seq<Record>, a: seq<Attr>, k: seq<int>, slid: seq<NodeVal>, x: Record)
      requires |live| == |nodes| && i < |nodes| && live[i] && slid == Slide(nodes, live, i) && Holds(r, a, k, slid)
      requires var n := nodes[i]; x == Record(n.kind, n.id, |a|, |n.attrs|, |k|, |n.children|)
      ensures Holds(r + [x], a + nodes[i].attrs, k + NewHandles(live, nodes[i].children), Slide(nodes, live, i + 1))
    {
      hide Holds, Slide, NewHandles;
      var n := nodes[i];
      HoldsSnoc(r, a, k, slid, x, n.attrs, NewHandles(live, n.children));
      SlideNext(nodes, live, i);
    }

    static lemma {:induction false} SlideNext(nodes: seq<NodeVal>, live: seq<bool>, i: nat)
      requires |live| == |nodes| && i < |nodes|
      ensures Slide(nodes, live, i + 1) ==
        if live[i] then Slide(nodes, live, i) + [Renamed(nodes[i], live)] else Slide(nodes, live, i)
    {
    }

    /** Slide all survivors into new arrays.  A survivor with a child outside the table is an error. */
    method SlideAll(
      bits: array<bool>, handleMap: array<int>, ghost live: seq<bool>,
      r: array<Record>, a: array<Attr>, k: array<int>)
      returns (ok: bool, nr: nat, na: nat, nk: nat)
      requires Valid() && bits.Length == NODE_CAPACITY && bits[..nodeCount] == live && IsMap(handleMap, live)
      requires r.Length == NODE_CAPACITY && a.Length == ATTR_CAPACITY && k.Length == CHILD_CAPACITY
      requires r != recs && a != attrs && k != kids && k != handleMap
      requires SelfContained(Nodes(), live)
      modifies r, a, k, this`status
      ensures Valid() && Nodes() == old(Nodes())
      ensures ok <==> LiveClosed(Nodes(), live)
      ensures status == if ok then old(status) else Broken(InvalidProgram)
      ensures ok ==> Slid(live, nodeCount, r, a, k, nr, na, nk)
    {
      hide Tiles, View, Slide, Slid, IsMap, HandlesOk, ChildrenIn;
      nr, na, nk := 0, 0, 0;
      NothingSlid(live, r, a, k);
      var i := 0;
      while i < nodeCount
        invariant 0 <= i <= nodeCount && Valid() && Nodes() == old(Nodes()) && status == old(status)
        invariant IsMap(handleMap, live) && bits[..nodeCount] == live
        invariant Slid(live, i, r, a, k, nr, na, nk)
        invariant forall j :: 0 <= j < i && live[j] ==> HandlesOk(Nodes()[j].children, nodeCount)
      {
        assert bits[i] == live[i];
        if bits[i] {
          ok := SlideOne(i, handleMap, live, r, a, k, nr, na, nk);
          if !ok {
            return;
          }
          nr, na, nk := nr + 1, na + recs[i].attrCount, nk + recs[i].kidCount;
        } else {
          SlidSkip(live, i, r, a, k, nr, na, nk);
        }
        i := i + 1;
      }
      ok := true;
    }

    lemma {:induction false} NothingSlid(live: seq<bool>, r: array<Record>, a: array<Attr>, k: array<int>)
      requires Valid() && |live| == nodeCount
      ensures Slid(live, 0, r, a, k, 0, 0, 0)
    {
      assert r[..0] == [] && a[..0] == [] && k[..0] == [];
    }

    lemma {:induction false} SlidSkip(
      live: seq<bool>, i: nat, r: array<Record>, a: array<Attr>, k: array<int>, nr: nat, na: nat, nk: nat)
      requires Valid() && |live| == nodeCount && i < nodeCount && !live[i] && Slid(live, i, r, a, k, nr, na, nk)
      ensures Slid(live, i + 1, r, a, k, nr, na, nk)
    {
      hide Tiles, View, Holds;
      SlideNext(Nodes(), live, i);
    }

    /** Copy the new arrays over the old ones. */
    method CopyBack(r: array<Record>, a: array<Attr>, k: array<int>, nr: nat, na: nat, nk: nat, ghost nodes: seq<NodeVal>)
      requires Valid() && r.Length == NODE_CAPACITY && a.Length == ATTR_CAPACITY && k.Length == CHILD_CAPACITY
      requires r != recs && a != attrs && k != kids
      requires nr <= NODE_CAPACITY && na <= ATTR_CAPACITY && nk <= CHILD_CAPACITY
      requires Holds(r[..nr], a[..na], k[..nk], nodes)
      modifies recs, attrs, kids, this`nodeCount, this`attrCount, this`kidCount
      ensures Valid() && Nodes() == nodes
    {
      hide Tiles, View;
      forall i | 0 <= i < NODE_CAPACITY {
        recs[i] := r[i];
      }
      forall i | 0 <= i < ATTR_CAPACITY {
        attrs[i] := a[i];
      }
      forall i | 0 <= i < CHILD_CAPACITY {
        kids[i] := k[i];
      }
      nodeCount, attrCount, kidCount := nr, na, nk;
      assert recs[..nr] == old(r[..nr]) && attrs[..na] == old(a[..na]) && kids[..nk] == old(k[..nk]);
      HeldNodes();
    }

    /** Rename the handles in a list of values. */
    method RemapValues(vs: seq<Value>, handleMap: array<int>, ghost live: seq<bool>) returns (ok: bool, moved: seq<Value>)
      requires |live| <= NODE_CAPACITY && IsMap(handleMap, live)
      modifies this`status
      ensures ok <==> ValuesKept(vs, live)
      ensures ok ==> moved == MoveValues(live, vs)
      ensures status == if ok then old(status) else Broken(InvalidProgram)
    {
      moved := [];
      var i := 0;
      while i < |vs|
        invariant 0 <= i <= |vs| && status == old(status) && moved == MoveValues(live, vs[..i])
        invariant forall v :: v in vs[..i] ==> ValueKept(v, live)
      {
        var v := vs[i];
        assert v in vs && vs[..i + 1] == vs[..i] + [v];
        assert MoveValues(live, vs[..i] + [v]) == MoveValues(live, vs[..i]) + [MoveValue(live, v)];
        if v.Node? {
          MappedIs(handleMap, live, v.handle);
          if !Mapped(handleMap, v.handle) {
            status := Broken(InvalidProgram);
            return false, moved;
          }
          moved := moved + [Node(handleMap[v.handle])];
        } else {
          moved := moved + [v];
        }
        i := i + 1;
      }
      assert vs[..i] == vs;
      ok := true;
    }

    static predicate ValueKept(v: Value, live: seq<bool>) {
      v.Node? ==> InRange(v.handle, |live|) && live[v.handle - 1]
    }

    method RemapPin(h: int, handleMap: array<int>, ghost live: seq<bool>) returns (ok: bool, moved: int)
      requires |live| <= NODE_CAPACITY && IsMap(handleMap, live)
      modifies this`status
      ensures ok <==> PinKept(h, live)
      ensures ok ==> moved == MovePin(live, h)
      ensures status == if ok then old(status) else Broken(InvalidProgram)
    {
      moved := h;
      ok := true;
      if h > 0 {
        MappedIs(handleMap, live, h);
        if !Mapped(handleMap, h) {
          status := Broken(InvalidProgram);
          return false, h;
        }
        moved := handleMap[h];
      }
    }

    /** Rename every value root, then every pin.  A root that is not a live node is an error. */
    method RemapRoots(handleMap: array<int>, ghost live: seq<bool>) returns (ok: bool)
      requires |live| <= NODE_CAPACITY && IsMap(handleMap, live)
      modifies this`stack, this`locals, this`tasks, this`pars, this`argv, this`window, this`event, this`status
      ensures ok <==> RootsKept(old(Pins()), live)
      ensures ok ==> Pins() == MoveRoots(live, old(Pins()))
      ensures status == if ok then old(status) else Broken(InvalidProgram)
    {
      hide MoveValues, IsMap, ValuesKept, MovePin, PinKept;
      ok := RemapValueRoots(handleMap, live);
      if ok {
        ok := RemapPins(handleMap, live);
      }
    }

    method RemapValueRoots(handleMap: array<int>, ghost live: seq<bool>) returns (ok: bool)
      requires |live| <= NODE_CAPACITY && IsMap(handleMap, live)
      modifies this`stack, this`locals, this`tasks, this`pars, this`status
      ensures ok <==>
        && ValuesKept(old(stack), live) && ValuesKept(old(locals), live)
        && ValuesKept(old(tasks), live) && ValuesKept(old(pars), live)
      ensures ok ==> stack == MoveValues(live, old(stack)) && locals == MoveValues(live, old(locals))
      ensures ok ==> tasks == MoveValues(live, old(tasks)) && pars == MoveValues(live, old(pars))
      ensures status == if ok then old(status) else Broken(InvalidProgram)
    {
      hide MoveValues, IsMap, ValuesKept;
      ok, stack := RemapValues(stack, handleMap, live);
      if ok {
        ok, locals := RemapValues(locals, handleMap, live);
      }
      if ok {
        ok, tasks := RemapValues(tasks, handleMap, live);
      }
      if ok {
        ok, pars := RemapValues(pars, handleMap, live);
      }
    }

    method RemapPins(handleMap: array<int>, ghost live: seq<bool>) returns (ok: bool)
      requires |live| <= NODE_CAPACITY && IsMap(handleMap, live)
      modifies this`argv, this`window, this`event, this`status
      ensures ok <==> PinKept(old(argv), live) && PinKept(old(window), live) && PinKept(old(event), live)
      ensures ok ==> argv == MovePin(live, old(argv)) && window == MovePin(live, old(window))
      ensures ok ==> event == MovePin(live, old(event))
      ensures status == if ok then old(status) else Broken(InvalidProgram)
    {
      hide MovePin, IsMap, PinKept;
      ok, argv := RemapPin(argv, handleMap, live);
      if ok {
        ok, window := RemapPin(window, handleMap, live);
      }
      if ok {
        ok, event := RemapPin(event, handleMap, live);
      }
    }

    static predicate ValuesKept(vs: seq<Value>, live: seq<bool>) {
      forall v :: v in vs ==> ValueKept(v, live)
    }

    static predicate PinKept(h: int, live: seq<bool>) {
      h > 0 ==> InRange(h, |live|) && live[h - 1]
    }

    static predicate RootsKept(r: Roots, live: seq<bool>) {
      && ValuesKept(r.stack, live) && ValuesKept(r.locals, live) && ValuesKept(r.tasks, live) && ValuesKept(r.pars, live)
      && PinKept(r.argv, live) && PinKept(r.window, live) && PinKept(r.event, live)
    }

    /** What a compaction by itself checks: incoming children beyond the table, dangling children of survivors,
        and roots. */
    static ghost predicate Compactable(s: HeapState, extra: seq<int>) {
      s.nodes != [] ==>
        && (forall h :: h in extra ==> h <= |s.nodes|)
        && RootsOk(s.roots, |s.nodes|) && LiveClosed(s.nodes, LiveFor(s, extra))
    }

    /** compact_node_arenas_with_map */
    method Compact(extra: seq<int>) returns (ok: bool, handleMap: array<int>)
      requires Valid()
      modifies this`nodeCount, this`attrCount, this`kidCount, this`status, recs, attrs, kids
      modifies this`stack, this`locals, this`tasks, this`pars, this`argv, this`window, this`event
      ensures Valid() && fresh(handleMap) && handleMap.Length == NODE_CAPACITY + 1
      ensures ok <==> Compactable(old(Abs()), extra)
      ensures ok ==> Abs() == Collected(old(Abs()), extra) && IsMap(handleMap, LiveFor(old(Abs()), extra))
      ensures status == if ok then old(status) else Broken(InvalidProgram)
    {
      hide Tiles, View, Slide, Starts, LiveOf, MoveRoots, Holds, LiveClosed, RootsKept, RootsOk, IsMap;
      ghost var s := Abs();
      handleMap := new int[NODE_CAPACITY + 1](_ => 0);
      if nodeCount == 0 {
        EmptyMap(handleMap);
        ok := true;
        return;
      }
      var bits;
      ok, bits := Mark(extra);
      if !ok {
        return;
      }
      ghost var live := bits[..nodeCount];
      assert live == LiveFor(s, extra);
      handleMap := Rank(bits);
      SurvivorsClosed(s, extra);
      KeptOk(s, extra);
      ok := SlideDown(bits, handleMap, live);
      if !ok {
        return;
      }
      ok := RemapRoots(handleMap, live);
    }

    /** Replace the arrays by the survivors. */
    method SlideDown(bits: array<bool>, handleMap: array<int>, ghost live: seq<bool>) returns (ok: bool)
      requires Valid() && bits.Length == NODE_CAPACITY && bits[..nodeCount] == live && IsMap(handleMap, live)
      requires SelfContained(Nodes(), live) && handleMap != kids
      modifies this`nodeCount, this`attrCount, this`kidCount, this`status, recs, attrs, kids
      ensures Valid() && (ok <==> LiveClosed(old(Nodes()), live))
      ensures ok ==> Nodes() == Slide(old(Nodes()), live, |live|) && IsMap(handleMap, live)
      ensures status == if ok then old(status) else Broken(InvalidProgram)
    {
      hide Tiles, View, Slide, Holds, LiveClosed, IsMap, SelfContained;
      ghost var nodes := Nodes();
      var r := new Record[NODE_CAPACITY](_ => Record("", "", 0, 0, 0, 0));
      var a := new Attr[ATTR_CAPACITY](_ => Attr("", BoolAttr(false)));
      var k := new int[CHILD_CAPACITY](_ => 0);
      var nr, na, nk;
      ok, nr, na, nk := SlideAll(bits, handleMap, live, r, a, k);
      if ok {
        CopyBack(r, a, k, nr, na, nk, Slide(nodes, live, |live|));
      }
    }

    static lemma {:induction false} EmptyMap(handleMap: array<int>)
      requires handleMap.Length == NODE_CAPACITY + 1 && forall h :: 0 <= h <= NODE_CAPACITY ==> handleMap[h] == 0
      ensures IsMap(handleMap, [])
    {
    }

    /** The children of live nodes are live. */
    static ghost predicate SelfContained(nodes: seq<NodeVal>, live: seq<bool>) {
      |live| == |nodes| && forall i :: 0 <= i < |nodes| && live[i] ==> ChildrenIn(nodes[i].children, live)
    }

    static lemma {:induction false} SurvivorsClosed(s: HeapState, extra: seq<int>)
      ensures SelfContained(s.nodes, LiveFor(s, extra))
    {
      hide LiveOf, Starts;
      forall i, c | 0 <= i < |s.nodes| && LiveFor(s, extra)[i] && c in s.nodes[i].children && InRange(c, |s.nodes|)
        ensures LiveFor(s, extra)[c - 1]
      {
        LiveChildren(s.nodes, Starts(s.roots, extra), i + 1, c);
      }
    }

    /** A root is kept exactly if it is a node at all: roots are live. */
    static lemma {:induction false} KeptOk(s: HeapState, extra: seq<int>)
      ensures RootsKept(s.roots, LiveFor(s, extra)) <==> RootsOk(s.roots, |s.nodes|)
    {
      hide LiveFor;
      KeptValuesOk(s, extra, s.roots.stack);
      KeptValuesOk(s, extra, s.roots.locals);
      KeptValuesOk(s, extra, s.roots.tasks);
      KeptValuesOk(s, extra, s.roots.pars);
      KeptPinOk(s, extra, s.roots.argv);
      KeptPinOk(s, extra, s.roots.window);
      KeptPinOk(s, extra, s.roots.event);
    }

    static lemma {:induction false} KeptPinOk(s: HeapState, extra: seq<int>, h: int)
      requires h == s.roots.argv || h == s.roots.window || h == s.roots.event
      ensures PinKept(h, LiveFor(s, extra)) <==> PinOk(h, |s.nodes|)
    {
      hide LiveFor;
      if InRange(h, |s.nodes|) {
        PinLive(s, extra, h);
      }
    }

    static lemma {:induction false} KeptValuesOk(s: HeapState, extra: seq<int>, vs: seq<Value>)
      requires vs == s.roots.stack || vs == s.roots.locals || vs == s.roots.tasks || vs == s.roots.pars
      ensures ValuesKept(vs, LiveFor(s, extra)) <==> ValuesOk(vs, |s.nodes|)
    {
      hide LiveFor;
      if ValuesOk(vs, |s.nodes|) {
        forall v | v in vs
          ensures ValueKept(v, LiveFor(s, extra))
        {
          assert ValueOk(v, |s.nodes|);
          RootLive(s, extra, v);
        }
      } else {
        var v :| v in vs && !ValueOk(v, |s.nodes|);
        assert !ValueKept(v, LiveFor(s, extra));
      }
    }

    // ---------- allocation ----------

    /** A collection on behalf of a new node, and the renaming of the children it comes with. */
    method CollectFor(children: seq<int>) returns (ok: bool, moved: seq<int>)
      requires Valid()
      modifies this`nodeCount, this`attrCount, this`kidCount, this`status, recs, attrs, kids
      modifies this`stack, this`locals, this`tasks, this`pars, this`argv, this`window, this`event
      ensures Valid() && (ok <==> Collectable(old(Abs()), children))
      ensures ok ==> Abs() == Collected(old(Abs()), children)
      ensures ok ==> moved == NewHandles(LiveFor(old(Abs()), children), children)
      ensures status == if ok then old(status) else Broken(InvalidProgram)
    {
      hide Tiles, View, LiveFor, RootsOk, LiveClosed, Collected, Collectable, Compactable, HandlesOk;
      ghost var s := Abs();
      ghost var live := LiveFor(s, children);
      CollectableIs(s, children);
      NoHandles(|s.nodes|);
      var handleMap;
      moved := [];
      ok, handleMap := Compact(children);
      if !ok {
        return;
      }
      var i := 0;
      while i < |children|
        invariant 0 <= i <= |children| && moved == NewHandles(live, children[..i])
        invariant Valid() && Abs() == Collected(s, children) && status == old(status)
        invariant IsMap(handleMap, live) && handleMap.Length == NODE_CAPACITY + 1
        invariant HandlesOk(children[..i], |s.nodes|)
      {
        var h := children[i];
        assert h in children;
        MappedIs(handleMap, live, h);
        if InRange(h, |s.nodes|) {
          PinLive(s, children, h);
        }
        OneHandle(children, i, |s.nodes|);
        if !Mapped(handleMap, h) {
          status := Broken(InvalidProgram);
          return false, moved;
        }
        moved := moved + [handleMap[h]];
        assert children[..i + 1] == children[..i] + [h];
        assert NewHandles(live, children[..i] + [h]) == NewHandles(live, children[..i]) + [NewHandle(live, h)];
        i := i + 1;
      }
      assert children[..i] == children;
    }

    static lemma {:induction false} NoHandles(n: nat)
      ensures HandlesOk([], n)
    {
    }

    static lemma {:induction false} OneHandle(hs: seq<int>, i: nat, n: nat)
      requires i < |hs| && HandlesOk(hs[..i], n)
      ensures HandlesOk(hs[..i + 1], n) <==> InRange(hs[i], n)
      ensures HandlesOk(hs, n) ==> InRange(hs[i], n)
    {
      assert hs[i] in hs[..i + 1];
      assert hs[i] in hs;
      assert hs[..i + 1] == hs[..i] + [hs[i]];
    }

    /** The checks of a compaction and of the renaming behind it, together. */
    static lemma {:induction false} CollectableIs(s: HeapState, extra: seq<int>)
      ensures Collectable(s, extra) <==> Compactable(s, extra) && HandlesOk(extra, |s.nodes|)
    {
    }

    /** should_attempt_proactive_node_gc */
    method ShouldCollect(n: NodeVal) returns (b: bool)
      requires Valid()
      ensures b <==> Pressure(Abs(), n)
    {
      HeldNodes();
      HoldsTotals(recs[..nodeCount], attrs[..attrCount], kids[..kidCount], Nodes());
      if allocs < GC_INTERVAL {
        return false;
      }
      b := nodeCount >= NODE_PRESSURE || attrCount + |n.attrs| >= ATTR_PRESSURE || kidCount + |n.children| >= CHILD_PRESSURE;
    }

    method HasRoom(n: NodeVal) returns (b: bool)
      requires Valid()
      ensures b <==> Fits(Nodes(), n)
    {
      HeldNodes();
      HoldsTotals(recs[..nodeCount], attrs[..attrCount], kids[..kidCount], Nodes());
      b := nodeCount + 1 <= NODE_CAPACITY && attrCount + |n.attrs| <= ATTR_CAPACITY &&
        kidCount + |n.children| <= CHILD_CAPACITY;
    }

    /** Write the record and its attributes and children behind the others. */
    method AppendNode(n: NodeVal)
      requires Valid() && Fits(Nodes(), n)
      modifies this`nodeCount, this`attrCount, this`kidCount, this`allocs, recs, attrs, kids
      ensures Valid() && Abs() == Append(old(Abs()), n)
    {
      hide Tiles, View, AttrTotal, ChildTotal;
      HeldNodes();
      ghost var nodes := Nodes();
      HoldsTotals(recs[..nodeCount], attrs[..attrCount], kids[..kidCount], nodes);
      recs[nodeCount] := Record(n.kind, n.id, attrCount, |n.attrs|, kidCount, |n.children|);
      WriteAttrs(n.attrs);
      WriteKids(n.children);
      HoldsSnoc(old(recs[..nodeCount]), old(attrs[..attrCount]), old(kids[..kidCount]), nodes,
        recs[nodeCount], n.attrs, n.children);
      assert recs[..nodeCount + 1] == old(recs[..nodeCount]) + [recs[nodeCount]];
      nodeCount, attrCount, kidCount := nodeCount + 1, attrCount + |n.attrs|, kidCount + |n.children|;
      allocs := allocs + 1;
      assert Valid();
      HeldNodes();
    }

    method WriteAttrs(xs: seq<Attr>)
      requires attrCount + |xs| <= attrs.Length
      modifies attrs
      ensures attrs[..attrCount + |xs|] == old(attrs[..attrCount]) + xs
    {
      var i := 0;
      while i < |xs|
        invariant 0 <= i <= |xs| && attrs[..attrCount + i] == old(attrs[..attrCount]) + xs[..i]
      {
        attrs[attrCount + i] := xs[i];
        assert attrs[..attrCount + i + 1] == attrs[..attrCount + i] + [xs[i]];
        i := i + 1;
      }
    }

    method WriteKids(hs: seq<int>)
      requires kidCount + |hs| <= kids.Length
      modifies kids
      ensures kids[..kidCount + |hs|] == old(kids[..kidCount]) + hs
    {
      var i := 0;
      while i < |hs|
        invariant 0 <= i <= |hs| && kids[..kidCount + i] == old(kids[..kidCount]) + hs[..i]
      {
        kids[kidCount + i] := hs[i];
        assert kids[..kidCount + i + 1] == kids[..kidCount + i] + [hs[i]];
        i := i + 1;
      }
    }

    /** create_node_record: collect if pressure asks for it, collect again if there is still no room, append. */
    method CreateNode(n: NodeVal) returns (ok: bool, handle: int)
      requires Valid() && Buildable(n)
      modifies this, recs, attrs, kids
      ensures Valid() && ok == Create(old(Abs()), n).Created?
      ensures ok ==> Create(old(Abs()), n) == Created(Abs(), handle) && status == old(status)
      ensures !ok ==> status.Broken? && Create(old(Abs()), n) == Refused(status.e)
    {
      hide Collected, Collectable, LiveFor, Fits, Pressure, Tiles, View, Place;
      handle := 0;
      ghost var s := Abs();
      var m := n;
      var collect := ShouldCollect(n);
      if collect {
        var moved;
        ok, moved := CollectFor(n.children);
        if !ok {
          return;
        }
        m := n.(children := moved);
        allocs := 0;
        assert Abs() == Collected(s, n.children).(allocs := 0);
        assert m == Renamed(n, LiveFor(s, n.children));
      }
      ok, handle := PlaceNode(m);
    }

    method PlaceNode(n: NodeVal) returns (ok: bool, handle: int)
      requires Valid() && Buildable(n)
      modifies this, recs, attrs, kids
      ensures Valid() && ok == Place(old(Abs()), n).Created?
      ensures ok ==> Place(old(Abs()), n) == Created(Abs(), handle) && status == old(status)
      ensures !ok ==> status.Broken? && Place(old(Abs()), n) == Refused(status.e)
    {
      hide Collected, Collectable, LiveFor, Pressure, AttrTotal, ChildTotal, Tiles, View;
      handle := 0;
      ghost var s := Abs();
      var m := n;
      ok := HasRoom(n);
      if !ok {
        var moved;
        ok, moved := CollectFor(n.children);
        if !ok {
          return;
        }
        m := n.(children := moved);
        allocs := 0;
        assert Abs() == Collected(s, n.children).(allocs := 0);
        ok := HasRoom(m);
        if !ok {
          status := Broken(MemoryPressure);
          return;
        }
      }
      AppendNode(m);
      handle := nodeCount;
    }

    // ---------- instructions ----------

    /** The heap is in the state an instruction's meaning says, or stopped with its error. */
    ghost predicate Did(r: H.StepResult)
      requires Valid()
      reads this, recs, attrs, kids
    {
      match r
      case Ran(s) => status == Fine && Abs() == s
      case Halted(e) => status == Broken(e)
    }

    method PushValue(v: Value)
      requires Valid() && status == Fine
      modifies this`stack, this`status
      ensures Valid() && Did(H.Answered(H.PushValue(old(Abs()), v)))
    {
      if |stack| < STACK_CAPACITY {
        stack := stack + [v];
      } else {
        status := Broken(StackOverflow);
      }
    }

    /** Allocate a node and push its handle. */
    method MakeAndPush(n: NodeVal)
      requires Valid() && status == Fine && Buildable(n)
      modifies this, recs, attrs, kids
      ensures Valid() && Did(H.PushCreated(Create(old(Abs()), n)))
    {
      hide Create, Tiles, View;
      var ok, handle := CreateNode(n);
      if ok {
        PushValue(Node(handle));
      }
    }

    /** Look a node up. */
    method Lookup(v: Value) returns (ok: bool, n: NodeVal)
      requires Valid()
      ensures ok <==> H.IsNode(Abs(), v)
      ensures ok ==> n == H.NodeOf(Abs(), v) && Buildable(n)
    {
      n := NodeVal("", "", [], []);
      ok := v.Node? && 0 < v.handle <= nodeCount;
      if ok {
        KidsOf(v.handle);
        var r := recs[v.handle - 1];
        n := NodeVal(r.kind, r.id, attrs[r.attrStart..r.attrStart + r.attrCount], kids[r.kidStart..r.kidStart + r.kidCount]);
      }
    }

    method MakeBlock()
      requires Valid() && status == Fine && |stack| >= 1
      modifies this, recs, attrs, kids
      ensures Valid() && Did(H.Step(old(Abs()), H.MakeBlock))
    {
      hide Create, Tiles, View;
      var id := stack[|stack| - 1];
      if !id.Str? {
        status := Broken(TypeMismatch);
        return;
      }
      stack := stack[..|stack| - 1];
      MakeAndPush(NodeVal("Block", id.s, [], []));
    }

    method AppendChild()
      requires Valid() && status == Fine && |stack| >= 2
      modifies this, recs, attrs, kids
      ensures Valid() && Did(H.Step(old(Abs()), H.AppendChild))
    {
      hide Create, Tiles, View;
      var child, base := stack[|stack| - 1], stack[|stack| - 2];
      var found, n := Lookup(base);
      if !found || !child.Node? || !(0 < child.handle <= nodeCount) {
        status := Broken(TypeMismatch);
        return;
      }
      if |n.children| + 1 > CHILD_CAPACITY {
        status := Broken(InvalidProgram);
        return;
      }
      stack := stack[..|stack| - 2];
      MakeAndPush(n.(children := n.children + [child.handle]));
    }

    method MakeErr()
      requires Valid() && status == Fine && |stack| >= 4
      modifies this, recs, attrs, kids
      ensures Valid() && Did(H.Step(old(Abs()), H.MakeErr))
    {
      hide Create, Tiles, View;
      var nodeId, message := stack[|stack| - 1], stack[|stack| - 2];
      var code, id := stack[|stack| - 3], stack[|stack| - 4];
      if !nodeId.Str? || !message.Str? || !code.Str? || !id.Str? {
        status := Broken(TypeMismatch);
        return;
      }
      stack := stack[..|stack| - 4];
      MakeAndPush(NodeVal("Err", id.s,
        [Attr("code", Identifier(code.s)), Attr("message", Text(message.s)), Attr("nodeId", Identifier(nodeId.s))], []));
    }

    method MakeLit(kind: H.LitKind)
      requires Valid() && status == Fine && |stack| >= 2
      modifies this, recs, attrs, kids
      ensures Valid() && Did(H.Step(old(Abs()), H.MakeLit(kind)))
    {
      hide Create, Tiles, View;
      var v, id := stack[|stack| - 1], stack[|stack| - 2];
      var typed := match kind case LitString => v.Str? case LitInt => v.Int? case LitBool => v.Bool?;
      if !id.Str? || !typed {
        status := Broken(TypeMismatch);
        return;
      }
      var a := match kind case LitString => Text(v.s) case LitInt => IntAttr(v.n) case LitBool => BoolAttr(v.b);
      stack := stack[..|stack| - 2];
      MakeAndPush(NodeVal("Lit", id.s, [Attr("value", a)], []));
    }

    /** A plain value is boxed first; the box is then an incoming child of the field node. */
    method MakeField()
      requires Valid() && status == Fine && |stack| >= 2
      modifies this, recs, attrs, kids
      ensures Valid() && Did(H.Step(old(Abs()), H.MakeField))
    {
      hide Create, Tiles, View;
      var v, key := stack[|stack| - 1], stack[|stack| - 2];
      if !key.Str? {
        status := Broken(TypeMismatch);
        return;
      }
      stack := stack[..|stack| - 2];
      var child := if v.Node? then v.handle else 0;
      if !v.Node? {
        var ok;
        ok, child := CreateNode(H.Boxed(v));
        if !ok {
          return;
        }
      }
      MakeAndPush(H.FieldNode(key.s, child));
    }

    /** Pop `count` operands, the last one first, boxing the plain ones, then build the node over them. */
    method Gather(template: H.Template, width: nat, count: int)
      requires Valid() && status == Fine && count >= 0
      requires template.NodeShape? ==> |template.attrs| == width
      modifies this, recs, attrs, kids
      ensures Valid()
      ensures match H.Gather(old(Abs()), template, width, count)
        case Stop(e) => status == Broken(e)
        case MakeMany(t, tpl, n) => Did(H.Gathered(t, tpl, n))
        case _ => false
    {
      hide Create, Tiles, View, H.BoxAll, H.ShapeOf;
      if count > CHILD_CAPACITY || width > ATTR_CAPACITY || |stack| < count {
        status := Broken(InvalidProgram);
        return;
      }
      var ok, handles := BoxAll(count);
      if !ok {
        return;
      }
      var n;
      ok, n := ReadShape(template, handles);
      if ok {
        MakeAndPush(n);
      } else {
        status := Broken(NotModelled);
      }
    }

    method BoxAll(count: nat) returns (ok: bool, handles: seq<int>)
      requires Valid() && status == Fine && count <= |stack|
      modifies this, recs, attrs, kids
      ensures Valid()
      ensures match H.BoxAll(old(Abs()), count, [])
        case Held(u, hs) => ok && status == Fine && Abs() == u && handles == hs && |hs| == count
        case Unheld(e) => !ok && status == Broken(e)
    {
      hide Create, Tiles, View, H.Boxed;
      ghost var s := Abs();
      handles := [];
      var i := 0;
      while i < count
        invariant 0 <= i <= count <= i + |stack| && |handles| == i && Valid() && status == Fine
        invariant H.BoxAll(s, count, []) == H.BoxAll(Abs(), count - i, handles)
      {
        var v := stack[|stack| - 1];
        ghost var before := Abs();
        stack := stack[..|stack| - 1];
        assert Abs() == H.Drop(before, 1);
        var h := if v.Node? then v.handle else 0;
        if !v.Node? {
          G.CreateStack(Abs(), H.Boxed(v));
          BoxSmall(v);
          ok, h := CreateNode(H.Boxed(v));
          if !ok {
            return;
          }
        }
        handles := [h] + handles;
        i := i + 1;
      }
      ok := true;
    }

    static lemma {:induction false} BoxSmall(v: Value)
      ensures Buildable(H.Boxed(v))
    {
    }

    /** The node to build, MAKE_NODE's template being read where it was. */
    method ReadShape(template: H.Template, handles: seq<int>) returns (ok: bool, n: NodeVal)
      requires Valid()
      ensures match H.ShapeOf(Nodes(), template, handles)
        case Torn => !ok
        case Shape(m) => ok && n == m
      ensures ok ==> |n.children| == |handles|
      ensures ok ==> |n.attrs| <= match template case MapShape => 0 case NodeShape(_, copied) => |copied|
    {
      hide Tiles, View;
      match template
      case MapShape =>
        return true, NodeVal("Map", "map", [], handles);
      case NodeShape(h, copied) =>
        n := NodeVal("", "", [], []);
        if h <= 0 || h > nodeCount {
          return false, n;
        }
        KidsOf(h);
        var r := recs[h - 1];
        if r.attrCount > |copied| {
          return false, n;
        }
        return true, NodeVal(r.kind, r.id, copied[..r.attrCount], handles);
    }

    method MakeMap()
      requires Valid() && status == Fine && |stack| >= 1
      modifies this, recs, attrs, kids
      ensures Valid() && Did(H.Step(old(Abs()), H.MakeMap))
    {
      hide Create, Tiles, View, H.Gathered;
      var count := stack[|stack| - 1];
      if !count.Int? || count.n < 0 {
        status := Broken(TypeMismatch);
        return;
      }
      stack := stack[..|stack| - 1];
      Gather(H.MapShape, 0, count.n);
    }

    method MakeNode()
      requires Valid() && status == Fine && |stack| >= 2
      modifies this, recs, attrs, kids
      ensures Valid() && Did(H.Step(old(Abs()), H.MakeNode))
    {
      hide Create, Tiles, View, H.Gathered;
      var count, shape := stack[|stack| - 1], stack[|stack| - 2];
      var ok, n := Lookup(shape);
      if !count.Int? || count.n < 0 || !ok {
        status := Broken(TypeMismatch);
        return;
      }
      stack := stack[..|stack| - 2];
      Gather(H.NodeShape(shape.handle, n.attrs), |n.attrs|, count.n);
    }

    method ChildAt()
      requires Valid() && status == Fine && |stack| >= 2
      modifies this`stack, this`status
      ensures Valid() && Did(H.Step(old(Abs()), H.ChildAt))
    {
      hide Tiles, View;
      var index, base := stack[|stack| - 1], stack[|stack| - 2];
      var found, n := Lookup(base);
      if !index.Int? || !found {
        status := Broken(TypeMismatch);
        return;
      }
      if index.n < 0 || index.n >= |n.children| {
        status := Broken(InvalidProgram);
        return;
      }
      stack := stack[..|stack| - 2];
      PushValue(Node(n.children[index.n]));
    }

    method Ask(q: H.Query)
      requires Valid() && status == Fine && |stack| >= 1
      modifies this`stack, this`status
      ensures Valid() && Did(H.Step(old(Abs()), H.Ask(q)))
    {
      hide Tiles, View, H.Answer;
      var found, n := Lookup(stack[|stack| - 1]);
      if !found {
        status := Broken(TypeMismatch);
        return;
      }
      stack := stack[..|stack| - 1];
      PushValue(H.Answer(n, q));
    }

    method AskAttr(q: H.AttrQuery)
      requires Valid() && status == Fine && |stack| >= 2
      modifies this`stack, this`status
      ensures Valid() && Did(H.Step(old(Abs()), H.AskAttr(q)))
    {
      hide Tiles, View, H.AttrAnswer;
      var index := stack[|stack| - 1];
      var found, n := Lookup(stack[|stack| - 2]);
      if !found || !index.Int? {
        status := Broken(TypeMismatch);
        return;
      }
      stack := stack[..|stack| - 2];
      PushValue(H.AttrAnswer(n, index.n, q));
    }

    method Store(slot: nat)
      requires Valid() && status == Fine && |stack| >= 1
      modifies this`stack, this`locals, this`status
      ensures Valid() && Did(H.Step(old(Abs()), H.Store(slot)))
    {
      hide Tiles, View;
      var v := stack[|stack| - 1];
      if slot >= |locals| && slot >= LOCALS_CAPACITY {
        status := Broken(LocalOutOfRange);
        return;
      }
      if slot > |locals| {
        status := Broken(NotModelled);
        return;
      }
      stack := stack[..|stack| - 1];
      locals := if slot < |locals| then locals[slot := v] else locals + [v];
    }

    /** A function's prologue: one local per argument. */
    method Enter(count: nat)
      requires Valid() && status == Fine && |stack| >= count
      modifies this`stack, this`locals, this`status
      ensures Valid() && Did(H.Step(old(Abs()), H.Enter(count)))
    {
      hide Tiles, View;
      if |locals| + count > LOCALS_CAPACITY {
        status := Broken(LocalOutOfRange);
        return;
      }
      locals := locals + stack[|stack| - count..];
      stack := stack[..|stack| - count];
    }

    /** A return: the callee's locals go. */
    method Leave(base: nat, kept: nat)
      requires Valid() && status == Fine
      modifies this`locals, this`status
      ensures Valid() && Did(H.Step(old(Abs()), H.Leave(base, kept)))
    {
      hide Tiles, View;
      if base > |stack| || kept > |locals| || |stack| > base + 1 {
        status := Broken(InvalidProgram);
        return;
      }
      locals := locals[..kept];
    }

    method EqualOp()
      requires Valid() && status == Fine && |stack| >= 2
      modifies this`stack, this`status
      ensures Valid() && Did(H.Step(old(Abs()), H.Equal))
    {
      hide Tiles, View;
      var right, left := stack[|stack| - 1], stack[|stack| - 2];
      stack := stack[..|stack| - 2];
      PushValue(Bool(left == right));
    }

    /** One instruction. */
    method Execute(op: H.Op)
      requires Valid() && status == Fine
      modifies this, recs, attrs, kids
      ensures Valid() && Did(H.Step(old(Abs()), op))
    {
      hide Create, Tiles, View, H.PushValue, H.PushCreated, H.EvalAppendChild, H.EvalMakeErr, H.EvalMakeLit, H.EvalMakeField,
        H.EvalMakeMap, H.EvalMakeNode, H.EvalChildAt, H.EvalStore, H.EvalEnter, H.EvalLeave, H.Answer, H.AttrAnswer;
      if |stack| < H.Arity(op) {
        status := Broken(StackUnderflow);
        return;
      }
      match op
      case MakeBlock => MakeBlock();
      case AppendChild => AppendChild();
      case MakeErr => MakeErr();
      case MakeLit(kind) => MakeLit(kind);
      case MakeField => MakeField();
      case MakeMap => MakeMap();
      case MakeNode => MakeNode();
      case ChildAt => ChildAt();
      case Ask(q) => Ask(q);
      case AskAttr(q) => AskAttr(q);
      case Equal => EqualOp();
      case Push(v) =>
        if v.Node? {
          status := Broken(NotModelled);
        } else {
          PushValue(v);
        }
      case Pop => stack := stack[..|stack| - 1];
      case Load(slot) =>
        if slot >= |locals| {
          status := Broken(LocalOutOfRange);
        } else {
          PushValue(locals[slot]);
        }
      case Store(slot) => Store(slot);
      case Args =>
        if argv <= 0 {
          status := Broken(NotModelled);
        } else {
          PushValue(Node(argv));
        }
      case Enter(count) => Enter(count);
      case Leave(base, kept) => Leave(base, kept);
    }

    // ---------- start-up ----------

    /** initialize_process_argv_node: the root first, naming items that do not exist yet, then the items. */
    method InitArgv(args: seq<string>)
      requires Valid() && status == Fine && Abs() == A.EMPTY
      modifies this, recs, attrs, kids
      ensures Valid() && Did(A.InitArgv(args))
    {
      hide Create, Tiles, View, A.ArgvItem, A.InitItems;
      if |args| > NODE_CAPACITY {
        status := Broken(InvalidProgram);
        return;
      }
      var ok, handle := CreateNode(A.ArgvRoot(|args|));
      if !ok {
        return;
      }
      if handle != 1 {
        status := Broken(InvalidProgram);
        return;
      }
      argv := handle;
      InitItems(args);
    }

    /** aivm_reset_state on a fresh heap. */
    method Startup(args: seq<string>)
      requires Valid() && status == Fine && Abs() == A.EMPTY
      modifies this, recs, attrs, kids
      ensures Valid() && Did(A.Startup(args))
    {
      hide Create, Tiles, View, A.InitArgv;
      InitArgv(args);
      allocs := 0;
    }

    method InitItems(args: seq<string>)
      requires Valid() && status == Fine
      modifies this, recs, attrs, kids
      ensures Valid() && Did(A.InitItems(old(Abs()), args, 0))
    {
      hide Create, Tiles, View, D.Decimal;
      var i := 0;
      while i < |args|
        invariant 0 <= i <= |args| && Valid() && status == Fine
        invariant A.InitItems(old(Abs()), args, 0) == A.InitItems(Abs(), args, i)
      {
        var ok, handle := CreateNode(A.ArgvItem(i, args[i]));
        if !ok {
          return;
        }
        if handle != i + 2 {
          status := Broken(InvalidProgram);
          return;
        }
        i := i + 1;
      }
    }
  }
}
