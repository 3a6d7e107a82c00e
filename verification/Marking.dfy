/** Breadth-first marking: what the live bits and the queue keep, and why the end of the queue means exactly
    the reachable nodes are live. */
module Marking {
  import opened Graph

  predicate NoRepeats(queue: seq<int>) {
    forall i, j :: 0 <= i < j < |queue| ==> queue[i] != queue[j]
  }

  /** The queue holds the handles of the live nodes, each once, and all of them are reachable. */
  ghost predicate Marked(nodes: seq<NodeVal>, starts: set<int>, live: seq<bool>, queue: seq<int>) {
    && |live| == |nodes| && NoRepeats(queue)
    && (forall h :: h in queue ==> InRange(h, |nodes|) && live[h - 1])
    && (forall i :: 0 <= i < |live| && live[i] ==> i + 1 in queue)
    && (forall i :: 0 <= i < |live| && live[i] ==> Reachable(nodes, starts, i + 1))
  }

  /** The children of the first `read` queued nodes are live. */
  ghost predicate Scanned(nodes: seq<NodeVal>, live: seq<bool>, queue: seq<int>, read: nat)
    requires read <= |queue|
  {
    forall k :: 0 <= k < read ==> InRange(queue[k], |nodes|) && ChildrenIn(nodes[queue[k] - 1].children, live)
  }

  /** Nothing live was unmarked. */
  predicate Wider(live: seq<bool>, more: seq<bool>) {
    |live| == |more| && forall i :: 0 <= i < |live| && live[i] ==> more[i]
  }

  lemma {:induction false} WiderTrans(a: seq<bool>, b: seq<bool>, c: seq<bool>)
    requires Wider(a, b) && Wider(b, c)
    ensures Wider(a, c)
  {
  }

  /** Handles without repetition fit in the queue. */
  lemma {:induction false} QueueBound(queue: seq<int>, n: nat)
    requires NoRepeats(queue) && forall h :: h in queue ==> InRange(h, n)
    ensures |queue| <= n
    decreases n
  {
    if queue != [] {
      assert queue[0] in queue;
      if n in queue {
        var i :| 0 <= i < |queue| && queue[i] == n;
        var rest := queue[..i] + queue[i + 1..];
        forall h | h in rest
          ensures InRange(h, n - 1)
        {
          assert h in queue;
        }
        QueueBound(rest, n - 1);
      } else {
        QueueBound(queue, n - 1);
      }
    }
  }

  lemma {:induction false} MarkOne(nodes: seq<NodeVal>, starts: set<int>, live: seq<bool>, queue: seq<int>, h: int)
    requires Marked(nodes, starts, live, queue) && InRange(h, |nodes|) && !live[h - 1]
    requires Reachable(nodes, starts, h)
    ensures |queue| < |nodes|
    ensures Marked(nodes, starts, live[h - 1 := true], queue + [h]) && Wider(live, live[h - 1 := true])
  {
    QueueBound(queue + [h], |nodes|);
  }

  lemma {:induction false} ScannedWider(
    nodes: seq<NodeVal>, live: seq<bool>, more: seq<bool>, queue: seq<int>, longer: seq<int>, read: nat)
    requires |live| == |nodes| && Wider(live, more) && |queue| <= |longer| && longer[..|queue|] == queue
    requires read <= |queue| && Scanned(nodes, live, queue, read)
    ensures Scanned(nodes, more, longer, read)
  {
    forall k | 0 <= k < read
      ensures InRange(longer[k], |nodes|) && ChildrenIn(nodes[longer[k] - 1].children, more)
    {
      assert longer[..|queue|][k] == queue[k];
      assert ChildrenIn(nodes[queue[k] - 1].children, live);
    }
  }

  lemma {:induction false} LiveScanned(nodes: seq<NodeVal>, starts: set<int>, live: seq<bool>, queue: seq<int>)
    requires Marked(nodes, starts, live, queue) && Scanned(nodes, live, queue, |queue|)
    ensures forall i :: 0 <= i < |nodes| && live[i] ==> ChildrenIn(nodes[i].children, live)
  {
    hide ChildrenIn, Reachable, NoRepeats;
    forall i | 0 <= i < |nodes| && live[i]
      ensures ChildrenIn(nodes[i].children, live)
    {
      assert i + 1 in queue;
      var k :| 0 <= k < |queue| && queue[k] == i + 1;
      assert ChildrenIn(nodes[queue[k] - 1].children, live);
    }
  }

  /** The queue is empty: live means reachable. */
  lemma {:induction false} MarkDone(nodes: seq<NodeVal>, starts: set<int>, live: seq<bool>, queue: seq<int>)
    requires Marked(nodes, starts, live, queue) && Scanned(nodes, live, queue, |queue|)
    requires forall s :: s in starts && InRange(s, |live|) ==> live[s - 1]
    ensures live == LiveOf(nodes, starts)
  {
    hide ChildrenIn, Reachable, NoRepeats;
    LiveScanned(nodes, starts, live, queue);
    forall i | 0 <= i < |nodes|
      ensures live[i] == Reachable(nodes, starts, i + 1)
    {
      if Reachable(nodes, starts, i + 1) {
        ReachableClosed(nodes, starts, i + 1, live);
      }
    }
  }
}
