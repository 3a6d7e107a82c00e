/** Garbage collection as a refinement over whole runs. */
module HeapRuns {
  import opened Values
  import opened Graph
  import opened Heap
  import opened HeapOps
  import opened Refinement
  import opened Gathering

  /** No handle held by the instruction changes its name while the instruction allocates.  Only MAKE_MAP and
      MAKE_NODE hold any. */
  ghost predicate SteadyStep(s: HeapState, op: Op) {
    match Eval(s, op)
    case MakeMany(t, template, count) => SteadyGather(t, template, count)
    case _ => true
  }

  ghost predicate SteadyRun(s: HeapState, ops: seq<Op>)
    decreases |ops|
  {
    ops == [] ||
    (SteadyStep(s, ops[0]) && (Step(s, ops[0]).Ran? ==> SteadyRun(Step(s, ops[0]).s, ops[1..])))
  }

  /** One instruction: the same outcome on both heaps, unless the bounded one is out of memory. */
  lemma {:induction false} StepRelated(c: HeapState, d: HeapState, ren: seq<int>, op: Op) returns (ren': seq<int>)
    requires Sound(c) && Related(c, d, ren) && SteadyStep(c, op)
    ensures SameResult(Step(c, op), IdealStep(d, op), ren')
  {
    hide Sound, Related, Create, Append, Eval, PushCreated, Gathered, IdealGathered, SteadyGather, TemplateOk;
    EvalRelated(c, d, ren, op);
    ren' := ren;
    match Eval(c, op)
    case Make(t, n) => ren' := MakeRelated(t, Eval(d, op).s, ren, n);
    case MakeBoxed(t, box, key) =>
      AppendLength(Eval(d, op).s, box);
      ren' := BoxRelated(t, Eval(d, op).s, ren, box, key);
    case MakeMany(t, template, count) => ren' := GatheredGood(t, Eval(d, op).s, ren, template, count);
    case _ =>
  }

  /** The condition is exact: an instruction agrees with the unbounded heap, or reports memory pressure, if and
      only if the handles it holds keep their names. */
  lemma {:induction false} StepExact(c: HeapState, d: HeapState, ren: seq<int>, op: Op)
    requires Sound(c) && Related(c, d, ren) && |Stack(c)| <= STACK_CAPACITY
    ensures (exists ren' :: SameResult(Step(c, op), IdealStep(d, op), ren')) <==>
      SteadyStep(c, op) || Step(c, op) == Halted(MemoryPressure)
  {
    hide Sound, Related, Create, Append, Eval, PushCreated, Gathered, IdealGathered, SteadyGather, TemplateOk;
    EvalRelated(c, d, ren, op);
    if Eval(c, op).MakeMany? {
      var t, template, count := Eval(c, op).s, Eval(c, op).template, Eval(c, op).count;
      ManyPops(c, op);
      GatheredExact(t, Eval(d, op).s, ren, template, count);
      assert Step(c, op) == Gathered(t, template, count);
      assert IdealStep(d, op) == IdealGathered(Eval(d, op).s, RenTemplate(ren, template), count);
    } else {
      var ren' := StepRelated(c, d, ren, op);
      assert SteadyStep(c, op);
    }
  }

  lemma {:induction false} ManyPops(s: HeapState, op: Op)
    ensures Eval(s, op).MakeMany? ==> |Stack(Eval(s, op).s)| < |Stack(s)|
  {
    hide Answer, AttrAnswer, Boxed;
  }

  /** On node operands nothing is boxed, so nothing can happen to the handles. */
  lemma {:induction false} NodesSteady(s: HeapState, op: Op)
    requires match Eval(s, op)
      case MakeMany(t, template, count) =>
        count <= |Stack(t)| && AllNodes(Stack(t)[|Stack(t)| - count..]) && TemplateOk(template, t.nodes)
      case _ => true
    ensures SteadyStep(s, op)
  {
    hide Eval;
    if Eval(s, op).MakeMany? {
      NodesBoxed(Eval(s, op).s, Eval(s, op).count, []);
    }
  }

  lemma {:induction false} NodesBoxed(s: HeapState, count: nat, handles: seq<int>)
    requires count <= |Stack(s)| && AllNodes(Stack(s)[|Stack(s)| - count..])
    ensures Steady(s, count, handles)
    ensures BoxAll(s, count, handles).Held? && BoxAll(s, count, handles).s.nodes == s.nodes
    decreases count
  {
    if count != 0 {
      var v, t := Top(s, 0), Drop(s, 1);
      assert v == Stack(s)[|Stack(s)| - count..][count - 1];
      assert Stack(t)[|Stack(t)| - (count - 1)..] == Stack(s)[|Stack(s)| - count..][..count - 1];
      NodesBoxed(t, count - 1, [v.handle] + handles);
    }
  }

  /** How many of the values are boxed. */
  function Plain(vs: seq<Value>): nat {
    if vs == [] then 0 else Plain(vs[..|vs| - 1]) + (if vs[|vs| - 1].Node? then 0 else 1)
  }

  /** Room for that many boxes without a collection: they fit, and either the interval since the last collection
      is not over or no pressure mark is reached. */
  predicate Roomy(s: HeapState, boxes: nat) {
    && |s.nodes| + boxes <= NODE_CAPACITY && AttrTotal(s.nodes) + 3 * boxes <= ATTR_CAPACITY
    && ChildTotal(s.nodes) <= CHILD_CAPACITY
    && (|| s.allocs + boxes <= GC_INTERVAL
        || (&& |s.nodes| + boxes <= NODE_PRESSURE && AttrTotal(s.nodes) + 3 * boxes < ATTR_PRESSURE
            && ChildTotal(s.nodes) < CHILD_PRESSURE))
  }

  /** What can be read off the counts before the instruction: with room for its boxes it is steady. */
  lemma {:induction false} RoomySteady(s: HeapState, op: Op)
    requires match Eval(s, op)
      case MakeMany(t, template, count) =>
        && count <= |Stack(t)| && TemplateOk(template, t.nodes)
        && (var boxes := Plain(Stack(t)[|Stack(t)| - count..]); boxes == 0 || Roomy(t, boxes))
      case _ => true
    ensures SteadyStep(s, op)
  {
    hide Eval, Plain, Roomy;
    match Eval(s, op)
    case MakeMany(t, template, count) =>
      RoomyBoxed(t, count, []);
      var r := BoxAll(t, count, []);
      if r.Held? && template.NodeShape? {
        assert r.s.nodes[template.handle - 1] == r.s.nodes[..|t.nodes|][template.handle - 1];
      }
    case _ =>
  }

  lemma {:induction false} RoomyBox(s: HeapState, box: NodeVal, boxes: nat, handles: seq<int>)
    requires Roomy(s, boxes) && boxes >= 1 && box.children == [] && |box.attrs| <= 3
    ensures Create(s, box) == Created(Append(s, box), |s.nodes| + 1)
    ensures Append(s, box).roots == s.roots && Append(s, box).nodes == s.nodes + [box]
    ensures NamesKept(s, box, handles) && Roomy(Append(s, box), boxes - 1)
  {
    hide AttrTotal, ChildTotal, Collected, Collectable, LiveFor, Renamed;
    TotalSnoc(s.nodes, box);
  }

  lemma {:induction false} RoomySame(s: HeapState, k: nat, boxes: nat)
    requires k <= |Stack(s)|
    ensures Roomy(Drop(s, k), boxes) <==> Roomy(s, boxes)
  {
  }

  lemma {:induction false} RoomyBoxed(s: HeapState, count: nat, handles: seq<int>)
    requires count <= |Stack(s)|
    requires var boxes := Plain(Stack(s)[|Stack(s)| - count..]); boxes == 0 || Roomy(s, boxes)
    ensures Steady(s, count, handles)
    ensures var r := BoxAll(s, count, handles);
      r.Held? ==> |s.nodes| <= |r.s.nodes| && r.s.nodes[..|s.nodes|] == s.nodes
    decreases count
  {
    hide Roomy, Boxed, Create, NamesKept, Append;
    if count != 0 {
      var v, t, vs := Top(s, 0), Drop(s, 1), Stack(s)[|Stack(s)| - count..];
      assert v == vs[count - 1] && Stack(t)[|Stack(t)| - (count - 1)..] == vs[..count - 1];
      RoomySame(s, 1, Plain(vs));
      if v.Node? {
        RoomyBoxed(t, count - 1, [v.handle] + handles);
      } else {
        RoomyBox(t, Boxed(v), Plain(vs), handles);
        var u := Append(t, Boxed(v));
        assert Stack(u) == Stack(t);
        RoomyBoxed(u, count - 1, [|u.nodes|] + handles);
        var r := BoxAll(u, count - 1, [|u.nodes|] + handles);
        if r.Held? {
          assert r.s.nodes[..|s.nodes|] == r.s.nodes[..|u.nodes|][..|s.nodes|];
        }
      }
    }
  }

  /** Any steady run on the bounded, collecting heap is the same run on an unbounded heap that never collects,
      up to an injective renaming of handles, wherever collections fall; the only other way out is memory
      pressure. */
  lemma {:induction false} RunRelated(c: HeapState, d: HeapState, ren: seq<int>, ops: seq<Op>) returns (ren': seq<int>)
    requires Sound(c) && Related(c, d, ren) && SteadyRun(c, ops)
    ensures SameResult(HeapOps.Run(c, ops), IdealRun(d, ops), ren')
    decreases |ops|
  {
    hide Sound, Related, HeapOps.Step, IdealStep, SteadyStep;
    ren' := ren;
    if ops != [] {
      ren' := StepRelated(c, d, ren, ops[0]);
      if HeapOps.Step(c, ops[0]).Ran? {
        ren' := RunRelated(HeapOps.Step(c, ops[0]).s, IdealStep(d, ops[0]).s, ren', ops[1..]);
      }
    }
  }
}
