/** The node instructions as moves of the machine: whatever they collect, they rename the active locals by one
    injective map, which is what Isolation.dfy allows an opcode to do to them. */
module HeapMoves {
  import opened Values
  import opened Graph
  import opened Heap
  import opened HeapOps
  import opened Gathering
  import opened Renaming
  import opened Isolation
  import M = Machine

  /** The locals of the two heaps are alike. */
  ghost predicate LocalsAlike(s: HeapState, t: HeapState) {
    Alike(s.roots.locals, t.roots.locals)
  }

  lemma {:induction false} LocalsTrans(s: HeapState, t: HeapState, u: HeapState)
    requires LocalsAlike(s, t) && LocalsAlike(t, u)
    ensures LocalsAlike(s, u)
  {
    hide Alike;
    AlikeTrans(s.roots.locals, t.roots.locals, u.roots.locals);
  }

  /** The handle map of a collection, on the handles in the locals, is such a renaming.  This asks no more than
      that the collection meets no dangling handle, which it checks itself. */
  lemma {:induction false} CollectAlike(s: HeapState, extra: seq<int>, allocs: nat)
    requires Collectable(s, extra)
    ensures LocalsAlike(s, Collected(s, extra).(allocs := allocs))
  {
    if s.nodes == [] {
      AlikeSelf(s.roots.locals);
    } else {
      hide LiveFor, Alike, Slide, NewHandle, LiveClosed;
      MoveAlike(s, extra, s.roots.locals);
    }
  }

  lemma {:induction false} MoveAlike(s: HeapState, extra: seq<int>, vs: seq<Value>)
    requires ValuesOk(vs, |s.nodes|) && vs == s.roots.locals
    ensures Alike(vs, MoveValues(LiveFor(s, extra), vs))
  {
    hide LiveFor, NewHandle;
    var live := LiveFor(s, extra);
    var m := map h | h in Handles(vs) :: NewHandle(live, h);
    forall h | h in m
      ensures InRange(h, |live|) && live[h - 1]
    {
      var v :| v in vs && v.Node? && v.handle == h;
      assert ValueOk(v, |s.nodes|);
      RootLive(s, extra, v);
    }
    forall a, b | a in m && b in m && m[a] == m[b]
      ensures a == b
    {
      NewHandleOrder(live, a, b);
    }
    forall i | 0 <= i < |vs|
      ensures RenamedValue(m, vs[i], MoveValues(live, vs)[i])
    {
      assert vs[i] in vs;
    }
    assert Injective(m) && RenamedBy(m, vs, MoveValues(live, vs));
  }

  lemma {:induction false} PlaceAlike(s: HeapState, n: NodeVal)
    requires Place(s, n).Created?
    ensures LocalsAlike(s, Place(s, n).s) && |Stack(Place(s, n).s)| == |Stack(s)|
  {
    hide LiveFor, Collectable, Alike, Fits, Renamed, Slide;
    if Fits(s.nodes, n) {
      AlikeSelf(s.roots.locals);
    } else {
      CollectAlike(s, n.children, 0);
    }
  }

  lemma {:induction false} CreateAlike(s: HeapState, n: NodeVal)
    requires Create(s, n).Created?
    ensures LocalsAlike(s, Create(s, n).s) && |Stack(Create(s, n).s)| == |Stack(s)|
  {
    hide LiveFor, LocalsAlike, Collectable, Place, Pressure, Renamed, Slide;
    if Pressure(s, n) {
      var t := Collected(s, n.children).(allocs := 0);
      CollectAlike(s, n.children, 0);
      PlaceAlike(t, Renamed(n, LiveFor(s, n.children)));
      LocalsTrans(s, t, Create(s, n).s);
    } else {
      PlaceAlike(s, n);
    }
  }

  lemma {:induction false} BoxAllAlike(s: HeapState, count: nat, handles: seq<int>)
    ensures var r := BoxAll(s, count, handles);
      r.Held? ==> LocalsAlike(s, r.s) && |Stack(r.s)| + count == |Stack(s)|
    decreases count
  {
    hide Create, Boxed, Alike;
    AlikeSelf(s.roots.locals);
    if count != 0 && Stack(s) != [] {
      var v, t := Top(s, 0), Drop(s, 1);
      if v.Node? {
        BoxAllAlike(t, count - 1, [v.handle] + handles);
      } else if Create(t, Boxed(v)).Created? {
        var u := Create(t, Boxed(v)).s;
        CreateAlike(t, Boxed(v));
        BoxAllAlike(u, count - 1, [Create(t, Boxed(v)).handle] + handles);
        if BoxAll(u, count - 1, [Create(t, Boxed(v)).handle] + handles).Held? {
          LocalsTrans(s, u, BoxAll(u, count - 1, [Create(t, Boxed(v)).handle] + handles).s);
        }
      }
    }
  }

  /** Instructions that move values between the stack and the locals, or open and close frames: their effect on
      locals is that of the machine's own moves. */
  predicate MovesLocals(op: Op) {
    op.Store? || op.Enter? || op.Leave?
  }

  /** The other instructions leave the locals alone until they allocate, and no push goes unchecked. */
  lemma {:induction false} EvalLocals(s: HeapState, op: Op)
    requires !MovesLocals(op) && !Eval(s, op).Stop? && |Stack(s)| <= STACK_CAPACITY
    ensures Eval(s, op).s.roots.locals == s.roots.locals && |Stack(Eval(s, op).s)| <= STACK_CAPACITY
  {
    hide Answer, AttrAnswer, Boxed, NodeOf;
  }

  lemma {:induction false} PushedLocals(o: Outcome)
    requires o.Created? && PushCreated(o).Ran?
    ensures PushCreated(o).s.roots.locals == o.s.roots.locals && |Stack(PushCreated(o).s)| <= STACK_CAPACITY
  {
  }

  /** The outcome of an instruction begun in `s`. */
  ghost predicate Moved(s: HeapState, r: StepResult) {
    r.Ran? ==> LocalsAlike(s, r.s) && |Stack(r.s)| <= STACK_CAPACITY
  }

  /** Any other instruction, on any heap, dangling handles or not. */
  lemma {:induction false} StepAlike(s: HeapState, op: Op)
    requires !MovesLocals(op) && |Stack(s)| <= STACK_CAPACITY
    ensures Moved(s, Step(s, op))
  {
    hide Create, Eval, PushCreated, Alike, Gathered;
    AlikeSelf(s.roots.locals);
    if !Eval(s, op).Stop? {
      EvalLocals(s, op);
      match Eval(s, op)
      case Make(t, n) => MadeAlike(t, n);
      case MakeBoxed(t, box, key) =>
        if Create(t, box).Created? {
          BoxedAlike(t, box, key);
        }
      case MakeMany(t, template, count) => GatheredAlike(t, template, count);
      case _ =>
    }
  }

  lemma {:induction false} MadeAlike(s: HeapState, n: NodeVal)
    ensures Moved(s, PushCreated(Create(s, n)))
  {
    hide Create, Alike, PushCreated;
    if PushCreated(Create(s, n)).Ran? {
      CreatedOnly(Create(s, n));
      PushedLocals(Create(s, n));
      CreateAlike(s, n);
    }
  }

  lemma {:induction false} CreatedOnly(o: Outcome)
    ensures PushCreated(o).Ran? ==> o.Created?
  {
  }

  lemma {:induction false} BoxedAlike(s: HeapState, box: NodeVal, key: string)
    requires Create(s, box).Created?
    ensures var u, h := Create(s, box).s, Create(s, box).handle;
      Moved(s, PushCreated(Create(u, FieldNode(key, h))))
  {
    hide Create, Alike, PushCreated;
    var u, h := Create(s, box).s, Create(s, box).handle;
    CreateAlike(s, box);
    MadeAlike(u, FieldNode(key, h));
    if PushCreated(Create(u, FieldNode(key, h))).Ran? {
      LocalsTrans(s, u, PushCreated(Create(u, FieldNode(key, h))).s);
    }
  }

  lemma {:induction false} GatheredAlike(s: HeapState, template: Template, count: nat)
    ensures Moved(s, Gathered(s, template, count))
  {
    hide Create, Alike, PushCreated, BoxAll, ShapeOf;
    if Gathered(s, template, count).Ran? {
      BoxAllAlike(s, count, []);
      var u := BoxAll(s, count, []).s;
      var n := ShapeOf(u.nodes, template, BoxAll(s, count, []).handles).n;
      MadeAlike(u, n);
      LocalsTrans(s, u, PushCreated(Create(u, n)).s);
    }
  }

  // ---------- heap and machine side by side ----------

  /** The heap's roots are the machine's operands and active locals. */
  ghost predicate Rooted(c: HeapState, s: M.State)
    requires s.WithinLimits()
  {
    c.roots.stack == s.stack && c.roots.locals == s.locals[..s.localsCount]
  }

  /** A node instruction is one of the effects Isolation.dfy allows, whatever the heap: `t` is the machine with
      the operands and locals that the instruction leaves. */
  lemma {:induction false} HeapEffect(c: HeapState, op: Op, s: M.State, t: M.State)
    requires s.WithinLimits() && Rooted(c, s) && !MovesLocals(op) && Step(c, op).Ran?
    requires t.frames == s.frames && t.localsCount == s.localsCount && t.stack == Stack(Step(c, op).s)
    requires t.locals == Step(c, op).s.roots.locals + s.locals[s.localsCount..]
    ensures Effect(s, t)
  {
    hide Step, Alike;
    StepAlike(c, op);
    var moved := Step(c, op).s.roots.locals;
    AlikeLength(c.roots.locals, moved);
    assert t.locals[..s.localsCount] == moved && t.locals[s.localsCount..] == s.locals[s.localsCount..];
  }

  lemma {:induction false} AlikeLength(vs: seq<Value>, ws: seq<Value>)
    requires Alike(vs, ws)
    ensures |vs| == |ws|
  {
  }
}
