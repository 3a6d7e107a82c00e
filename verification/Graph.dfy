/** The node graph: what is reachable, and what sliding the survivors down does to it.  Handles count from
    1; the node with handle `h` is `nodes[h - 1]`. */
module Graph {

  datatype AttrValue = Identifier(s: string) | Text(s: string) | IntAttr(n: int) | BoolAttr(b: bool)

  datatype Attr = Attr(key: string, value: AttrValue)

  datatype NodeVal = NodeVal(kind: string, id: string, attrs: seq<Attr>, children: seq<int>)

  predicate InRange(h: int, n: nat) {
    1 <= h <= n
  }

  // ---------- reachability ----------

  /** A walk from node to child.  Children outside the node table are not followed. */
  predicate Walk(nodes: seq<NodeVal>, path: seq<int>) {
    && (forall i :: 0 <= i < |path| ==> InRange(path[i], |nodes|))
    && (forall i :: 0 <= i < |path| - 1 ==> path[i + 1] in nodes[path[i] - 1].children)
  }

  predicate WalkTo(nodes: seq<NodeVal>, starts: set<int>, h: int, path: seq<int>) {
    |path| > 0 && path[0] in starts && path[|path| - 1] == h && Walk(nodes, path)
  }

  ghost predicate Reachable(nodes: seq<NodeVal>, starts: set<int>, h: int) {
    exists path :: WalkTo(nodes, starts, h, path)
  }

  ghost function LiveOf(nodes: seq<NodeVal>, starts: set<int>): (live: seq<bool>)
    ensures |live| == |nodes|
  {
    seq(|nodes|, i requires 0 <= i < |nodes| => Reachable(nodes, starts, i + 1))
  }

  lemma {:induction false} StartReachable(nodes: seq<NodeVal>, starts: set<int>, h: int)
    requires h in starts && InRange(h, |nodes|)
    ensures Reachable(nodes, starts, h)
  {
    assert WalkTo(nodes, starts, h, [h]);
  }

  lemma {:induction false} ChildReachable(nodes: seq<NodeVal>, starts: set<int>, h: int, c: int)
    requires Reachable(nodes, starts, h) && InRange(h, |nodes|)
    requires c in nodes[h - 1].children && InRange(c, |nodes|)
    ensures Reachable(nodes, starts, c)
  {
    var path :| WalkTo(nodes, starts, h, path);
    var longer := path + [c];
    assert WalkTo(nodes, starts, c, longer);
  }

  /** Anything closed under children that holds the starts holds everything reachable. */
  lemma {:induction false} ReachableClosed(nodes: seq<NodeVal>, starts: set<int>, h: int, live: seq<bool>)
    requires Reachable(nodes, starts, h) && |live| == |nodes|
    requires forall s :: s in starts && InRange(s, |nodes|) ==> live[s - 1]
    requires forall i :: 0 <= i < |nodes| && live[i] ==> ChildrenIn(nodes[i].children, live)
    ensures InRange(h, |nodes|) && live[h - 1]
  {
    var path :| WalkTo(nodes, starts, h, path);
    var i := 0;
    while i < |path| - 1
      invariant 0 <= i < |path| && live[path[i] - 1]
    {
      assert ChildrenIn(nodes[path[i] - 1].children, live);
      assert path[i + 1] in nodes[path[i] - 1].children;
      i := i + 1;
    }
  }

  predicate ChildrenIn(children: seq<int>, live: seq<bool>) {
    forall c :: c in children && InRange(c, |live|) ==> live[c - 1]
  }

  // ---------- ranks ----------

  predicate Full(live: seq<bool>) {
    forall i :: 0 <= i < |live| ==> live[i]
  }

  /** How many of the first `k` are live. */
  function Count(live: seq<bool>, k: nat): (r: nat)
    requires k <= |live|
    ensures r <= k
  {
    if k == 0 then 0 else Count(live, k - 1) + if live[k - 1] then 1 else 0
  }

  lemma {:induction false} CountGrows(live: seq<bool>, i: nat, j: nat)
    requires i <= j <= |live|
    ensures Count(live, i) <= Count(live, j)
    ensures i < j && live[i] ==> Count(live, i) < Count(live, j)
    decreases j
  {
    if i < j {
      CountGrows(live, i, j - 1);
    }
  }

  /** The handle map of a compaction: the rank of a survivor, 0 for the rest. */
  function NewHandle(live: seq<bool>, h: int): (r: int)
    ensures 0 <= r <= |live|
  {
    if InRange(h, |live|) && live[h - 1] then Count(live, h) else 0
  }

  function NewHandles(live: seq<bool>, hs: seq<int>): (r: seq<int>)
    ensures |r| == |hs|
  {
    seq(|hs|, i requires 0 <= i < |hs| => NewHandle(live, hs[i]))
  }

  /** Survivors keep their order, so distinct survivors stay distinct. */
  lemma {:induction false} NewHandleOrder(live: seq<bool>, a: int, b: int)
    requires InRange(a, |live|) && InRange(b, |live|) && live[a - 1] && live[b - 1]
    ensures a < b <==> NewHandle(live, a) < NewHandle(live, b)
    ensures a == b <==> NewHandle(live, a) == NewHandle(live, b)
    ensures InRange(NewHandle(live, a), Count(live, |live|))
  {
    CountGrows(live, a - 1, a);
    CountGrows(live, a, |live|);
    if a < b {
      CountGrows(live, a, b - 1);
      CountGrows(live, b - 1, b);
    } else if b < a {
      CountGrows(live, b, a - 1);
    }
  }

  /** Every new handle is the new handle of a survivor. */
  lemma {:induction false} OldHandle(live: seq<bool>, k: nat, r: int) returns (h: int)
    requires k <= |live| && InRange(r, Count(live, k))
    ensures InRange(h, k) && live[h - 1] && Count(live, h) == r
    decreases k
  {
    if live[k - 1] && Count(live, k) == r {
      h := k;
    } else {
      h := OldHandle(live, k - 1, r);
    }
  }

  lemma {:induction false} AllLive(live: seq<bool>, k: nat)
    requires k <= |live| && Full(live)
    ensures Count(live, k) == k
    decreases k
  {
    if k != 0 {
      AllLive(live, k - 1);
    }
  }

  // ---------- sliding ----------

  function Renamed(n: NodeVal, live: seq<bool>): NodeVal {
    n.(children := NewHandles(live, n.children))
  }

  /** The survivors among the first `k` nodes, in order, their children renamed. */
  function Slide(nodes: seq<NodeVal>, live: seq<bool>, k: nat): (r: seq<NodeVal>)
    requires |live| == |nodes| && k <= |nodes|
    ensures |r| == Count(live, k)
  {
    if k == 0 then []
    else if live[k - 1] then Slide(nodes, live, k - 1) + [Renamed(nodes[k - 1], live)]
    else Slide(nodes, live, k - 1)
  }

  /** A survivor is found, renamed, under its new handle. */
  lemma {:induction false} SlideAt(nodes: seq<NodeVal>, live: seq<bool>, k: nat, h: int)
    requires |live| == |nodes| && k <= |nodes| && InRange(h, k) && live[h - 1]
    ensures InRange(Count(live, h), |Slide(nodes, live, k)|)
    ensures Slide(nodes, live, k)[Count(live, h) - 1] == Renamed(nodes[h - 1], live)
    decreases k
  {
    CountGrows(live, h - 1, h);
    CountGrows(live, h, k);
    if h < k {
      SlideAt(nodes, live, k - 1, h);
    }
  }

  /** Every child of every node is in the table. */
  ghost predicate Closed(nodes: seq<NodeVal>) {
    forall i :: 0 <= i < |nodes| ==> HandlesOk(nodes[i].children, |nodes|)
  }

  predicate HandlesOk(hs: seq<int>, n: nat) {
    forall h :: h in hs ==> InRange(h, n)
  }

  /** Survivors only have surviving children. */
  lemma {:induction false} LiveChildren(nodes: seq<NodeVal>, starts: set<int>, h: int, c: int)
    requires InRange(h, |nodes|) && LiveOf(nodes, starts)[h - 1]
    requires c in nodes[h - 1].children && InRange(c, |nodes|)
    ensures LiveOf(nodes, starts)[c - 1]
  {
    ChildReachable(nodes, starts, h, c);
  }

  lemma {:induction false} NewHandlesOk(live: seq<bool>, hs: seq<int>)
    requires forall h :: h in hs ==> InRange(h, |live|) && live[h - 1]
    ensures HandlesOk(NewHandles(live, hs), Count(live, |live|))
  {
    forall r | r in NewHandles(live, hs)
      ensures InRange(r, Count(live, |live|))
    {
      var i :| 0 <= i < |hs| && NewHandles(live, hs)[i] == r;
      assert hs[i] in hs;
      NewHandleOrder(live, hs[i], hs[i]);
    }
  }

  lemma {:induction false} SlideClosed(nodes: seq<NodeVal>, starts: set<int>)
    requires Closed(nodes)
    ensures Closed(Slide(nodes, LiveOf(nodes, starts), |nodes|))
  {
    var live := LiveOf(nodes, starts);
    var slid := Slide(nodes, live, |nodes|);
    forall i | 0 <= i < |slid|
      ensures HandlesOk(slid[i].children, |slid|)
    {
      var h := OldHandle(live, |nodes|, i + 1);
      SlideAt(nodes, live, |nodes|, h);
      var children := nodes[h - 1].children;
      assert HandlesOk(children, |nodes|);
      forall c | c in children
        ensures InRange(c, |live|) && live[c - 1]
      {
        LiveChildren(nodes, starts, h, c);
      }
      NewHandlesOk(live, children);
    }
  }

  /** The walk that reached a survivor, renamed, is a walk in the new graph. */
  lemma {:induction false} SlideReaches(nodes: seq<NodeVal>, starts: set<int>, newStarts: set<int>, h: int)
    requires Reachable(nodes, starts, h)
    requires forall s :: s in starts && InRange(s, |nodes|) ==> NewHandle(LiveOf(nodes, starts), s) in newStarts
    ensures Reachable(Slide(nodes, LiveOf(nodes, starts), |nodes|), newStarts, NewHandle(LiveOf(nodes, starts), h))
  {
    hide Slide, NewHandle;
    var live := LiveOf(nodes, starts);
    var slid := Slide(nodes, live, |nodes|);
    var path :| WalkTo(nodes, starts, h, path);
    WalkLive(nodes, starts, path);
    var moved := NewHandles(live, path);
    WalkMoves(nodes, live, path);
    assert WalkTo(slid, newStarts, NewHandle(live, h), moved);
  }

  lemma {:induction false} WalkMoves(nodes: seq<NodeVal>, live: seq<bool>, path: seq<int>)
    requires |live| == |nodes| && Walk(nodes, path) && forall i :: 0 <= i < |path| ==> live[path[i] - 1]
    ensures Walk(Slide(nodes, live, |nodes|), NewHandles(live, path))
  {
    hide Slide;
    var slid, moved := Slide(nodes, live, |nodes|), NewHandles(live, path);
    forall i | 0 <= i < |moved|
      ensures InRange(moved[i], |slid|) && slid[moved[i] - 1] == Renamed(nodes[path[i] - 1], live)
    {
      SlideAt(nodes, live, |nodes|, path[i]);
    }
    forall i | 0 <= i < |moved| - 1
      ensures moved[i + 1] in slid[moved[i] - 1].children
    {
      var children := nodes[path[i] - 1].children;
      assert path[i + 1] in children;
      var j :| 0 <= j < |children| && children[j] == path[i + 1];
      assert slid[moved[i] - 1] == Renamed(nodes[path[i] - 1], live);
      assert NewHandles(live, children)[j] == moved[i + 1];
    }
  }

  lemma {:induction false} WalkLive(nodes: seq<NodeVal>, starts: set<int>, path: seq<int>)
    requires |path| > 0 && path[0] in starts && Walk(nodes, path)
    ensures forall i :: 0 <= i < |path| ==> LiveOf(nodes, starts)[path[i] - 1]
  {
    forall i | 0 <= i < |path|
      ensures Reachable(nodes, starts, path[i])
    {
      var prefix := path[..i + 1];
      assert WalkTo(nodes, starts, path[i], prefix);
    }
  }

  /** Collection is exact: behind a compaction everything is reachable. */
  lemma {:induction false} SlideAllLive(nodes: seq<NodeVal>, starts: set<int>, newStarts: set<int>)
    requires forall s :: s in starts && InRange(s, |nodes|) ==> NewHandle(LiveOf(nodes, starts), s) in newStarts
    ensures Full(LiveOf(Slide(nodes, LiveOf(nodes, starts), |nodes|), newStarts))
  {
    var live := LiveOf(nodes, starts);
    var slid := Slide(nodes, live, |nodes|);
    forall i | 0 <= i < |slid|
      ensures LiveOf(slid, newStarts)[i]
    {
      var h := OldHandle(live, |nodes|, i + 1);
      SlideReaches(nodes, starts, newStarts, h);
    }
  }

  /** Sliding a fully live graph changes nothing. */
  lemma {:induction false} SlideIdentity(nodes: seq<NodeVal>, live: seq<bool>, k: nat)
    requires |live| == |nodes| && k <= |nodes| && Closed(nodes) && Full(live)
    ensures Slide(nodes, live, k) == nodes[..k]
    decreases k
  {
    if k != 0 {
      SlideIdentity(nodes, live, k - 1);
      SameHandles(live, nodes[k - 1].children);
      assert nodes[..k] == nodes[..k - 1] + [nodes[k - 1]];
    }
  }

  lemma {:induction false} SameHandles(live: seq<bool>, hs: seq<int>)
    requires HandlesOk(hs, |live|) && Full(live)
    ensures NewHandles(live, hs) == hs
  {
    forall i | 0 <= i < |hs|
      ensures NewHandle(live, hs[i]) == hs[i]
    {
      assert hs[i] in hs;
      AllLive(live, hs[i]);
    }
  }
}
