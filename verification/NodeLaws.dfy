/** What the node instructions mean to a program: the readers give back what the constructors were given, on any
    sound heap, whatever collections do to the names of nodes in between. */
module NodeLaws {
  import opened Values
  import opened Graph
  import opened Heap
  import opened HeapOps
  import opened Renaming
  import opened Refinement
  import opened Gathering
  import opened HeapRuns
  import A = Argv
  import D = AstDump

  // ---------- readers ----------

  /** The instruction replaces its operands by `v`, `rest` being what lies under them. */
  ghost predicate Gives(t: HeapState, rest: seq<Value>, operands: seq<Value>, op: Op, v: Value) {
    Step(WithStack(t, rest + operands), op) == Ran(WithStack(t, rest + [v]))
  }

  ghost predicate ReadsShape(
    t: HeapState, rest: seq<Value>, h: int, kind: string, id: string, attrs: nat, children: nat)
  {
    && Gives(t, rest, [Node(h)], Ask(KindOf), Str(kind))
    && Gives(t, rest, [Node(h)], Ask(IdOf), Str(id))
    && Gives(t, rest, [Node(h)], Ask(AttrCount), Int(attrs))
    && Gives(t, rest, [Node(h)], Ask(ChildCount), Int(children))
  }

  /** What the five attribute readers answer. */
  ghost predicate ReadsAs(
    t: HeapState, rest: seq<Value>, h: int, i: int, key: string, kind: string, text: string, n: int, b: bool)
  {
    && Gives(t, rest, [Node(h), Int(i)], AskAttr(KeyAt), Str(key))
    && Gives(t, rest, [Node(h), Int(i)], AskAttr(KindAt), Str(kind))
    && Gives(t, rest, [Node(h), Int(i)], AskAttr(StringAt), Str(text))
    && Gives(t, rest, [Node(h), Int(i)], AskAttr(IntAt), Int(n))
    && Gives(t, rest, [Node(h), Int(i)], AskAttr(BoolAt), Bool(b))
  }

  ghost predicate ReadsAttr(t: HeapState, rest: seq<Value>, h: int, attrs: seq<Attr>, i: int) {
    if !(0 <= i < |attrs|) then ReadsAs(t, rest, h, i, "", "", "", 0, false)
    else
      match attrs[i].value
      case Identifier(x) => ReadsAs(t, rest, h, i, attrs[i].key, "identifier", x, 0, false)
      case Text(x) => ReadsAs(t, rest, h, i, attrs[i].key, "string", x, 0, false)
      case IntAttr(n) => ReadsAs(t, rest, h, i, attrs[i].key, "int", "", n, false)
      case BoolAttr(b) => ReadsAs(t, rest, h, i, attrs[i].key, "bool", "", 0, b)
  }

  ghost predicate ReadsChild(t: HeapState, rest: seq<Value>, h: int, children: seq<int>, i: int) {
    if 0 <= i < |children| then Gives(t, rest, [Node(h), Int(i)], ChildAt, Node(children[i]))
    else Step(WithStack(t, rest + [Node(h), Int(i)]), ChildAt) == Halted(InvalidProgram)
  }

  /** Everything a program can read off the node `h`. */
  ghost predicate Reads(t: HeapState, h: int, kind: string, id: string, attrs: seq<Attr>, children: seq<int>) {
    forall rest: seq<Value> :: |rest| < STACK_CAPACITY ==>
      && ReadsShape(t, rest, h, kind, id, |attrs|, |children|)
      && (forall i :: ReadsAttr(t, rest, h, attrs, i))
      && (forall i :: ReadsChild(t, rest, h, children, i))
  }

  lemma {:induction false} OneOperand(t: HeapState, rest: seq<Value>, v: Value)
    ensures var u := WithStack(t, rest + [v]);
      |Stack(u)| == |rest| + 1 && Top(u, 0) == v && Drop(u, 1) == WithStack(t, rest)
  {
    assert (rest + [v])[..|rest|] == rest;
  }

  lemma {:induction false} TwoOperands(t: HeapState, rest: seq<Value>, v: Value, w: Value)
    ensures var u := WithStack(t, rest + [v, w]);
      |Stack(u)| == |rest| + 2 && Top(u, 1) == v && Top(u, 0) == w && Drop(u, 2) == WithStack(t, rest)
  {
    assert (rest + [v, w])[..|rest|] == rest;
  }

  lemma {:induction false} ShapeRead(t: HeapState, rest: seq<Value>, h: int)
    requires InRange(h, |t.nodes|) && |rest| < STACK_CAPACITY
    ensures var n := t.nodes[h - 1]; ReadsShape(t, rest, h, n.kind, n.id, |n.attrs|, |n.children|)
  {
    OneOperand(t, rest, Node(h));
  }

  lemma {:induction false} AttrRead(t: HeapState, rest: seq<Value>, h: int, i: int)
    requires InRange(h, |t.nodes|) && |rest| < STACK_CAPACITY
    ensures ReadsAttr(t, rest, h, t.nodes[h - 1].attrs, i)
  {
    hide Gives;
    AskGives(t, rest, h, i, KeyAt);
    AskGives(t, rest, h, i, KindAt);
    AskGives(t, rest, h, i, StringAt);
    AskGives(t, rest, h, i, IntAt);
    AskGives(t, rest, h, i, BoolAt);
  }

  lemma {:induction false} AskGives(t: HeapState, rest: seq<Value>, h: int, i: int, q: AttrQuery)
    requires InRange(h, |t.nodes|) && |rest| < STACK_CAPACITY
    ensures Gives(t, rest, [Node(h), Int(i)], AskAttr(q), AttrAnswer(t.nodes[h - 1], i, q))
  {
    hide AttrAnswer;
    TwoOperands(t, rest, Node(h), Int(i));
  }

  lemma {:induction false} ChildRead(t: HeapState, rest: seq<Value>, h: int, i: int)
    requires InRange(h, |t.nodes|) && |rest| < STACK_CAPACITY
    ensures ReadsChild(t, rest, h, t.nodes[h - 1].children, i)
  {
    TwoOperands(t, rest, Node(h), Int(i));
  }

  /** The readers read the record. */
  lemma {:induction false} ReadRecord(t: HeapState, h: int)
    requires InRange(h, |t.nodes|)
    ensures var n := t.nodes[h - 1]; Reads(t, h, n.kind, n.id, n.attrs, n.children)
  {
    hide ReadsShape, ReadsAttr, ReadsChild;
    var n := t.nodes[h - 1];
    forall rest: seq<Value> | |rest| < STACK_CAPACITY
      ensures ReadsShape(t, rest, h, n.kind, n.id, |n.attrs|, |n.children|)
      ensures forall i :: ReadsAttr(t, rest, h, n.attrs, i)
      ensures forall i :: ReadsChild(t, rest, h, n.children, i)
    {
      ShapeRead(t, rest, h);
      forall i
        ensures ReadsAttr(t, rest, h, n.attrs, i) && ReadsChild(t, rest, h, n.children, i)
      {
        AttrRead(t, rest, h, i);
        ChildRead(t, rest, h, i);
      }
    }
  }

  // ---------- what an instruction leaves alone ----------

  function Mapped(m: map<int, int>, hs: seq<int>): (r: seq<int>)
    ensures |r| == |hs|
  {
    seq(|hs|, i requires 0 <= i < |hs| => if hs[i] in m then m[hs[i]] else 0)
  }

  /** Node `h` of `s` is node `m[h]` of `t`, children included. */
  predicate SameNode(s: HeapState, t: HeapState, m: map<int, int>, h: int)
    requires h in m
  {
    && InRange(h, |s.nodes|) && InRange(m[h], |t.nodes|)
    && var a, b := s.nodes[h - 1], t.nodes[m[h] - 1];
       && b.kind == a.kind && b.id == a.id && b.attrs == a.attrs
       && (forall c :: c in a.children ==> c in m) && b.children == Mapped(m, a.children)
  }

  /** All roots but the top operands hold what they held, and every node that anyone still knows is what it was,
      up to one injective renaming. */
  ghost predicate Carried(s: HeapState, t: HeapState, popped: nat, pushed: nat, m: map<int, int>) {
    && popped <= |Stack(s)| && pushed <= |Stack(t)| && Injective(m)
    && (forall h :: h in m ==> SameNode(s, t, m, h))
    && RenamedBy(m, Stack(s)[..|Stack(s)| - popped], Stack(t)[..|Stack(t)| - pushed])
    && RenamedBy(m, s.roots.locals, t.roots.locals)
    && RenamedBy(m, s.roots.tasks, t.roots.tasks) && RenamedBy(m, s.roots.pars, t.roots.pars)
  }

  /** The names that the nodes of `s` have behind the renaming, those that are still there. */
  ghost function Names(s: HeapState, ren: seq<int>): map<int, int> {
    map h | InRange(h, |s.nodes|) && h in ren :: NameOf(ren, h)
  }

  ghost function NameOf(ren: seq<int>, h: int): (o: int)
    requires h in ren
    ensures InRange(o, |ren|) && ren[o - 1] == h
  {
    var i :| 0 <= i < |ren| && ren[i] == h;
    i + 1
  }

  lemma {:induction false} NameBack(s: HeapState, ren: seq<int>, m: nat, o: int)
    requires Injection(ren, m) && InRange(o, |ren|)
    ensures var h := Ren(ren, o);
      if InRange(h, |s.nodes|) then h in Names(s, ren) && Names(s, ren)[h] == o else o !in Names(s, ren).Values
  {
    var h := ren[o - 1];
    assert h in ren;
    forall k | k in Names(s, ren) && Names(s, ren)[k] == o
      ensures k == h
    {
    }
  }

  lemma {:induction false} NamesInjective(s: HeapState, ren: seq<int>, m: nat)
    requires Injection(ren, m)
    ensures Injective(Names(s, ren))
  {
  }

  /** The step left `s` alone except for appending: its nodes are the first of `d`. */
  ghost predicate Extends(s: HeapState, d: HeapState) {
    && |s.nodes| <= |d.nodes| && d.nodes[..|s.nodes|] == s.nodes
    && d.roots.locals == s.roots.locals && d.roots.tasks == s.roots.tasks && d.roots.pars == s.roots.pars
  }

  lemma {:induction false} HandlesBack(s: HeapState, ren: seq<int>, m: nat, hs: seq<int>, os: seq<int>)
    requires Injection(ren, m) && HandlesOk(os, |ren|) && RenHandles(ren, os) == hs
    requires forall h :: h in hs ==> InRange(h, |s.nodes|)
    ensures (forall h :: h in hs ==> h in Names(s, ren)) && os == Mapped(Names(s, ren), hs)
  {
    forall i | 0 <= i < |os|
      ensures hs[i] in Names(s, ren) && os[i] == Names(s, ren)[hs[i]]
    {
      assert os[i] in os && hs[i] == Ren(ren, os[i]) && hs[i] in hs;
      NameBack(s, ren, m, os[i]);
    }
  }

  lemma {:induction false} ValuesBack(s: HeapState, ren: seq<int>, m: nat, vs: seq<Value>, ws: seq<Value>)
    requires Injection(ren, m) && ValuesOk(ws, |ren|) && RenValues(ren, ws) == vs && ValuesOk(vs, |s.nodes|)
    ensures RenamedBy(Names(s, ren), vs, ws)
  {
    forall i | 0 <= i < |vs|
      ensures RenamedValue(Names(s, ren), vs[i], ws[i])
    {
      assert ws[i] in ws && vs[i] in vs && vs[i] == RenValue(ren, ws[i]);
      if ws[i].Node? {
        NameBack(s, ren, m, ws[i].handle);
      }
    }
  }

  lemma {:induction false} NodeBack(s: HeapState, d: HeapState, t: HeapState, ren: seq<int>, h: int)
    requires Closed(s.nodes) && Closed(t.nodes) && Related(t, d, ren) && Extends(s, d) && h in Names(s, ren)
    ensures SameNode(s, t, Names(s, ren), h)
  {
    hide RootsRelated;
    var o := Names(s, ren)[h];
    var a, b := s.nodes[h - 1], t.nodes[o - 1];
    assert d.nodes[h - 1] == d.nodes[..|s.nodes|][h - 1];
    assert d.nodes[ren[o - 1] - 1] == RenNode(ren, b);
    assert HandlesOk(a.children, |s.nodes|) && HandlesOk(b.children, |t.nodes|);
    HandlesBack(s, ren, |d.nodes|, a.children, b.children);
  }

  /** Seen from the heap before, what the step leaves alone is carried over. */
  lemma {:induction false} CarriedBack(
    s: HeapState, d: HeapState, t: HeapState, ren: seq<int>, popped: nat, pushed: nat)
    requires Sound(s) && Sound(t) && Related(t, d, ren) && Extends(s, d)
    requires popped <= |Stack(s)| && pushed <= |Stack(d)|
    requires Stack(d)[..|Stack(d)| - pushed] == Stack(s)[..|Stack(s)| - popped]
    ensures Carried(s, t, popped, pushed, Names(s, ren))
  {
    hide NodesRelated, Closed, AttrTotal, ChildTotal, SameNode, Names;
    var m := Names(s, ren);
    NamesInjective(s, ren, |d.nodes|);
    forall h | h in m
      ensures SameNode(s, t, m, h)
    {
      NodeBack(s, d, t, ren, h);
    }
    var vs, ws := Stack(s)[..|Stack(s)| - popped], Stack(t)[..|Stack(d)| - pushed];
    assert RenValues(ren, ws) == vs;
    assert forall v :: v in vs ==> v in Stack(s);
    assert forall v :: v in ws ==> v in Stack(t);
    ValuesBack(s, ren, |d.nodes|, vs, ws);
    ValuesBack(s, ren, |d.nodes|, s.roots.locals, t.roots.locals);
    ValuesBack(s, ren, |d.nodes|, s.roots.tasks, t.roots.tasks);
    ValuesBack(s, ren, |d.nodes|, s.roots.pars, t.roots.pars);
  }

  // ---------- what an instruction makes ----------

  /** A value that is no node is boxed. */
  ghost predicate BoxReads(t: HeapState, c: int, v: Value) {
    match v
    case Str(x) => Reads(t, c, "Lit", "runtime_string", [Attr("value", Text(x))], [])
    case Int(n) => Reads(t, c, "Lit", "runtime_int", [Attr("value", IntAttr(n))], [])
    case Bool(b) => Reads(t, c, "Lit", "runtime_bool", [Attr("value", BoolAttr(b))], [])
    case Null => Reads(t, c, "Null", "runtime_null", [], [])
    case Bytes(data) => Reads(t, c, "Lit", "runtime_bytes", [Attr("byteLength", IntAttr(|data|))], [])
    case Void => Reads(t, c, "Block", "void", [], [])
    case Unknown => Reads(t, c, "Err", "runtime_err",
      [Attr("code", Identifier("RUN030")), Attr("message", Text("Unsupported runtime value.")),
       Attr("nodeId", Identifier("runtime"))], [])
    case Node(_) => false
  }

  /** The child `c` of a new node is the operand `v`: that very node, or a new box. */
  ghost predicate ChildFor(t: HeapState, m: map<int, int>, v: Value, c: int) {
    if v.Node? then v.handle in m && c == m[v.handle] else c !in m.Values && BoxReads(t, c, v)
  }

  /** In place of `popped` operands there is a new node, which reads so, with children for `vs`. */
  ghost predicate Made(
    s: HeapState, popped: nat, t: HeapState, m: map<int, int>, hs: seq<int>,
    kind: string, id: string, attrs: seq<Attr>, vs: seq<Value>)
  {
    && Stack(t) != [] && Carried(s, t, popped, 1, m)
    && |hs| == |vs| && (forall i :: 0 <= i < |vs| ==> ChildFor(t, m, vs[i], hs[i]))
    && var top := Stack(t)[|Stack(t)| - 1];
       top.Node? && top.handle !in m.Values && Reads(t, top.handle, kind, id, attrs, hs)
  }

  /** The instruction made that node, unless memory was short. */
  ghost predicate Makes(
    s: HeapState, popped: nat, r: StepResult, kind: string, id: string, attrs: seq<Attr>, vs: seq<Value>)
  {
    r == Halted(MemoryPressure) || (r.Ran? && exists m, hs :: Made(s, popped, r.s, m, hs, kind, id, attrs, vs))
  }

  /** The child `x` of a node on the unbounded heap is the operand `v`. */
  predicate IdealChild(s: HeapState, d: HeapState, v: Value, x: int) {
    if v.Node? then x == v.handle && InRange(x, |s.nodes|)
    else |s.nodes| < x <= |d.nodes| && d.nodes[x - 1] == Boxed(v)
  }

  lemma {:induction false} BoxRead(t: HeapState, c: int, v: Value)
    requires InRange(c, |t.nodes|) && !v.Node? && t.nodes[c - 1] == Boxed(v)
    ensures BoxReads(t, c, v)
  {
    hide Reads;
    ReadRecord(t, c);
  }

  lemma {:induction false} ChildBack(s: HeapState, d: HeapState, t: HeapState, ren: seq<int>, v: Value, c: int)
    requires Related(t, d, ren) && InRange(c, |ren|) && IdealChild(s, d, v, Ren(ren, c))
    ensures ChildFor(t, Names(s, ren), v, c)
  {
    hide RootsRelated, Names, BoxReads;
    NameBack(s, ren, |d.nodes|, c);
    if !v.Node? {
      assert d.nodes[ren[c - 1] - 1] == RenNode(ren, t.nodes[c - 1]);
      BoxRead(t, c, v);
    }
  }

  /** The new node of the unbounded heap, seen on the bounded one. */
  lemma {:induction false} TopBack(
    s: HeapState, d: HeapState, t: HeapState, ren: seq<int>, popped: nat, n: NodeVal, vs: seq<Value>)
    requires Sound(s) && Sound(t) && Related(t, d, ren) && Extends(s, d) && popped <= |Stack(s)|
    requires |s.nodes| < |d.nodes| && d.nodes[|d.nodes| - 1] == n && |n.children| == |vs|
    requires Stack(d) == Stack(s)[..|Stack(s)| - popped] + [Node(|d.nodes|)]
    requires forall i :: 0 <= i < |vs| ==> IdealChild(s, d, vs[i], n.children[i])
    ensures exists m, hs :: Made(s, popped, t, m, hs, n.kind, n.id, n.attrs, vs)
  {
    hide NodesRelated, AttrTotal, ChildTotal, Names, Reads, Carried, IdealChild, ChildFor;
    var m := Names(s, ren);
    CarriedBack(s, d, t, ren, popped, 1);
    assert |Stack(t)| == |Stack(d)|;
    var top := Stack(t)[|Stack(t)| - 1];
    assert top in Stack(t) && RenValue(ren, top) == Stack(d)[|Stack(d)| - 1] == Node(|d.nodes|);
    NameBack(s, ren, |d.nodes|, top.handle);
    var hs := RecordBack(d, t, ren, top.handle, n);
    ReadRecord(t, top.handle);
    forall i | 0 <= i < |vs|
      ensures ChildFor(t, m, vs[i], hs[i])
    {
      assert hs[i] in hs && Ren(ren, hs[i]) == n.children[i];
      ChildBack(s, d, t, ren, vs[i], hs[i]);
    }
    assert Made(s, popped, t, m, hs, n.kind, n.id, n.attrs, vs);
  }

  lemma {:induction false} RecordBack(d: HeapState, t: HeapState, ren: seq<int>, o: int, n: NodeVal) returns (hs: seq<int>)
    requires Closed(t.nodes) && Related(t, d, ren) && InRange(o, |t.nodes|) && d.nodes[Ren(ren, o) - 1] == n
    ensures t.nodes[o - 1] == n.(children := hs) && HandlesOk(hs, |ren|) && RenHandles(ren, hs) == n.children
  {
    hide RootsRelated;
    hs := t.nodes[o - 1].children;
    assert d.nodes[ren[o - 1] - 1] == RenNode(ren, t.nodes[o - 1]);
  }

  /** Any steady instruction that appends a node on the unbounded heap. */
  lemma {:induction false} StepMakes(s: HeapState, op: Op, popped: nat, n: NodeVal, vs: seq<Value>)
    requires Sound(s) && SteadyStep(s, op) && IdealStep(s, op).Ran?
    requires var d := IdealStep(s, op).s;
      && Extends(s, d) && popped <= |Stack(s)| && |n.children| == |vs|
      && |s.nodes| < |d.nodes| && d.nodes[|d.nodes| - 1] == n
      && Stack(d) == Stack(s)[..|Stack(s)| - popped] + [Node(|d.nodes|)]
      && forall i :: 0 <= i < |vs| ==> IdealChild(s, d, vs[i], n.children[i])
    ensures Makes(s, popped, Step(s, op), n.kind, n.id, n.attrs, vs)
  {
    hide Sound, Related, Step, IdealStep, SteadyStep, Made, IdealChild;
    StartRelated(s);
    var ren := StepRelated(s, s, Same(|s.nodes|), op);
    if Step(s, op).Ran? {
      TopBack(s, IdealStep(s, op).s, Step(s, op).s, ren, popped, n, vs);
    }
  }

  // ---------- the constructors ----------

  /** A sound heap with `operands` on top of the stack. */
  ghost predicate Ready(s: HeapState, operands: seq<Value>) {
    && Sound(s) && |operands| <= |Stack(s)| <= STACK_CAPACITY
    && Stack(s)[|Stack(s)| - |operands|..] == operands
  }

  lemma {:induction false} ReadyTop(s: HeapState, operands: seq<Value>, k: nat)
    requires Ready(s, operands) && k < |operands|
    ensures Top(s, k) == operands[|operands| - 1 - k] && Top(s, k) in Stack(s) && ValueOk(Top(s, k), |s.nodes|)
  {
    hide Closed, AttrTotal, ChildTotal;
    assert Stack(s)[|Stack(s)| - |operands|..][|operands| - 1 - k] == Top(s, k);
  }

  /** An instruction that asks for one new node, with children that are there already. */
  lemma {:induction false} OneNode(s: HeapState, op: Op, popped: nat, n: NodeVal, vs: seq<Value>)
    requires Sound(s) && 1 <= popped <= |Stack(s)| <= STACK_CAPACITY
    requires Eval(s, op) == Make(Drop(s, popped), n) && |n.children| == |vs|
    requires forall i :: 0 <= i < |vs| ==> vs[i] == Node(n.children[i]) && InRange(n.children[i], |s.nodes|)
    ensures Makes(s, popped, Step(s, op), n.kind, n.id, n.attrs, vs)
  {
    hide Sound, Eval, Step, Makes;
    StepMakes(s, op, popped, n, vs);
  }

  lemma {:induction false} BlockLaw(s: HeapState, id: string)
    requires Ready(s, [Str(id)])
    ensures Makes(s, 1, Step(s, MakeBlock), "Block", id, [], [])
  {
    hide Sound, Step, Makes;
    ReadyTop(s, [Str(id)], 0);
    OneNode(s, MakeBlock, 1, NodeVal("Block", id, [], []), []);
  }

  lemma {:induction false} ErrLaw(s: HeapState, id: string, code: string, message: string, nodeId: string)
    requires Ready(s, [Str(id), Str(code), Str(message), Str(nodeId)])
    ensures Makes(s, 4, Step(s, MakeErr), "Err", id,
      [Attr("code", Identifier(code)), Attr("message", Text(message)), Attr("nodeId", Identifier(nodeId))], [])
  {
    hide Sound, Step, Makes;
    var operands := [Str(id), Str(code), Str(message), Str(nodeId)];
    ReadyTop(s, operands, 0);
    ReadyTop(s, operands, 1);
    ReadyTop(s, operands, 2);
    ReadyTop(s, operands, 3);
    OneNode(s, MakeErr, 4, NodeVal("Err", id,
      [Attr("code", Identifier(code)), Attr("message", Text(message)), Attr("nodeId", Identifier(nodeId))], []), []);
  }

  lemma {:induction false} StringLaw(s: HeapState, id: string, x: string)
    requires Ready(s, [Str(id), Str(x)])
    ensures Makes(s, 2, Step(s, MakeLit(LitString)), "Lit", id, [Attr("value", Text(x))], [])
  {
    hide Sound, Step, Makes;
    ReadyTop(s, [Str(id), Str(x)], 0);
    ReadyTop(s, [Str(id), Str(x)], 1);
    OneNode(s, MakeLit(LitString), 2, NodeVal("Lit", id, [Attr("value", Text(x))], []), []);
  }

  lemma {:induction false} IntLaw(s: HeapState, id: string, n: int)
    requires Ready(s, [Str(id), Int(n)])
    ensures Makes(s, 2, Step(s, MakeLit(LitInt)), "Lit", id, [Attr("value", IntAttr(n))], [])
  {
    hide Sound, Step, Makes;
    ReadyTop(s, [Str(id), Int(n)], 0);
    ReadyTop(s, [Str(id), Int(n)], 1);
    OneNode(s, MakeLit(LitInt), 2, NodeVal("Lit", id, [Attr("value", IntAttr(n))], []), []);
  }

  lemma {:induction false} BoolLaw(s: HeapState, id: string, b: bool)
    requires Ready(s, [Str(id), Bool(b)])
    ensures Makes(s, 2, Step(s, MakeLit(LitBool)), "Lit", id, [Attr("value", BoolAttr(b))], [])
  {
    hide Sound, Step, Makes;
    ReadyTop(s, [Str(id), Bool(b)], 0);
    ReadyTop(s, [Str(id), Bool(b)], 1);
    OneNode(s, MakeLit(LitBool), 2, NodeVal("Lit", id, [Attr("value", BoolAttr(b))], []), []);
  }

  function AsNodes(hs: seq<int>): (vs: seq<Value>)
    ensures |vs| == |hs| && forall i :: 0 <= i < |hs| ==> vs[i] == Node(hs[i])
  {
    seq(|hs|, i requires 0 <= i < |hs| => Node(hs[i]))
  }

  /** The new node is the old one with one child more, the last one; the old one is still what it was. */
  lemma {:induction false} AppendLaw(s: HeapState, base: int, child: int)
    requires Ready(s, [Node(base), Node(child)])
    requires InRange(base, |s.nodes|) ==>
      var n := s.nodes[base - 1]; |n.attrs| <= ATTR_CAPACITY && |n.children| < CHILD_CAPACITY
    ensures InRange(base, |s.nodes|)
    ensures var n := s.nodes[base - 1];
      && Reads(s, base, n.kind, n.id, n.attrs, n.children)
      && Makes(s, 2, Step(s, AppendChild), n.kind, n.id, n.attrs, AsNodes(n.children + [child]))
  {
    hide Step, Makes, Reads, AttrTotal, ChildTotal;
    var operands := [Node(base), Node(child)];
    ReadyTop(s, operands, 0);
    ReadyTop(s, operands, 1);
    var n := s.nodes[base - 1];
    ReadRecord(s, base);
    assert HandlesOk(n.children, |s.nodes|);
    OneNode(s, AppendChild, 2, n.(children := n.children + [child]), AsNodes(n.children + [child]));
  }

  lemma {:induction false} FieldLaw(s: HeapState, key: string, v: Value)
    requires Ready(s, [Str(key), v])
    ensures Makes(s, 2, Step(s, MakeField), "Field", "field", [Attr("key", Text(key))], [v])
  {
    hide Sound, Step, Makes, Boxed;
    ReadyTop(s, [Str(key), v], 0);
    ReadyTop(s, [Str(key), v], 1);
    if v.Node? {
      OneNode(s, MakeField, 2, FieldNode(key, v.handle), [v]);
    } else {
      var d := IdealStep(s, MakeField).s;
      assert d.nodes == s.nodes + [Boxed(v)] + [FieldNode(key, |s.nodes| + 1)];
      StepMakes(s, MakeField, 2, FieldNode(key, |s.nodes| + 1), [v]);
    }
  }

  // ---------- many operands ----------

  /** What boxing the top `vs` on the unbounded heap comes to. */
  ghost predicate BoxedAll(s: HeapState, vs: seq<Value>, d: HeapState, hs: seq<int>) {
    && |hs| == |vs| <= |Stack(s)| && Extends(s, d) && d.roots == Drop(s, |vs|).roots
    && forall i :: 0 <= i < |vs| ==> IdealChild(s, d, vs[i], hs[i])
  }

  /** Boxing on the unbounded heap. */
  lemma {:induction false} IdealOperands(s: HeapState, vs: seq<Value>, handles: seq<int>)
    returns (d: HeapState, hs: seq<int>)
    requires |vs| <= |Stack(s)| && Stack(s)[|Stack(s)| - |vs|..] == vs
    requires forall i :: 0 <= i < |vs| ==> ValueOk(vs[i], |s.nodes|)
    ensures IdealBoxAll(s, |vs|, handles) == Held(d, hs + handles) && BoxedAll(s, vs, d, hs)
    decreases |vs|
  {
    hide Boxed, BoxedAll;
    if vs == [] {
      d, hs := s, [];
      NoneBoxed(s);
      assert [] + handles == handles;
    } else {
      var k := |vs| - 1;
      var v, t := vs[k], Drop(s, 1);
      LastOperand(s, vs);
      if v.Node? {
        d, hs := IdealOperands(t, vs[..k], [v.handle] + handles);
        NodeBoxed(s, vs, d, hs);
        assert hs + ([v.handle] + handles) == (hs + [v.handle]) + handles;
        hs := hs + [v.handle];
      } else {
        var h := |t.nodes| + 1;
        d, hs := IdealOperands(Append(t, Boxed(v)), vs[..k], [h] + handles);
        PlainBoxed(s, vs, d, hs);
        assert hs + ([h] + handles) == (hs + [h]) + handles;
        hs := hs + [h];
      }
    }
  }

  lemma {:induction false} NoneBoxed(s: HeapState)
    ensures BoxedAll(s, [], s, [])
  {
    assert Drop(s, 0) == s;
  }

  lemma {:induction false} LastOperand(s: HeapState, vs: seq<Value>)
    requires 1 <= |vs| <= |Stack(s)| && Stack(s)[|Stack(s)| - |vs|..] == vs
    ensures var k, t := |vs| - 1, Drop(s, 1);
      && Top(s, 0) == vs[k] && Stack(t)[|Stack(t)| - k..] == vs[..k]
      && Drop(t, k) == Drop(s, |vs|)
  {
    var k, t := |vs| - 1, Drop(s, 1);
    assert Top(s, 0) == Stack(s)[|Stack(s)| - |vs|..][k];
    assert Stack(t)[..|Stack(t)| - k] == Stack(s)[..|Stack(s)| - |vs|];
  }

  lemma {:induction false} NodeBoxed(s: HeapState, vs: seq<Value>, d: HeapState, hs: seq<int>)
    requires 1 <= |vs| <= |Stack(s)| && BoxedAll(Drop(s, 1), vs[..|vs| - 1], d, hs)
    requires vs[|vs| - 1].Node? && ValueOk(vs[|vs| - 1], |s.nodes|)
    ensures BoxedAll(s, vs, d, hs + [vs[|vs| - 1].handle])
  {
    hide Boxed;
    var k, t := |vs| - 1, Drop(s, 1);
    assert Stack(t)[..|Stack(t)| - k] == Stack(s)[..|Stack(s)| - |vs|];
    forall i | 0 <= i < k
      ensures IdealChild(s, d, vs[i], hs[i])
    {
      assert IdealChild(t, d, vs[..k][i], hs[i]);
    }
  }

  lemma {:induction false} PlainBoxed(s: HeapState, vs: seq<Value>, d: HeapState, hs: seq<int>)
    requires 1 <= |vs| <= |Stack(s)| && !vs[|vs| - 1].Node?
    requires BoxedAll(Append(Drop(s, 1), Boxed(vs[|vs| - 1])), vs[..|vs| - 1], d, hs)
    requires forall i :: 0 <= i < |vs| ==> ValueOk(vs[i], |s.nodes|)
    ensures BoxedAll(s, vs, d, hs + [|s.nodes| + 1])
  {
    hide Boxed;
    var k, t := |vs| - 1, Drop(s, 1);
    var u := Append(t, Boxed(vs[k]));
    assert Stack(t)[..|Stack(t)| - k] == Stack(s)[..|Stack(s)| - |vs|];
    assert forall i :: 0 <= i < k ==> vs[..k][i] == vs[i];
    OneDeeper(s, u, d, vs, hs, Boxed(vs[k]));
  }

  /** Children of the longer heap are children of the shorter one. */
  lemma {:induction false} OneDeeper(
    s: HeapState, u: HeapState, d: HeapState, vs: seq<Value>, hs: seq<int>, box: NodeVal)
    requires u.nodes == s.nodes + [box] && Extends(u, d) && |vs| == |hs| + 1
    requires u.roots.locals == s.roots.locals && u.roots.tasks == s.roots.tasks && u.roots.pars == s.roots.pars
    requires forall i :: 0 <= i < |vs| ==> ValueOk(vs[i], |s.nodes|)
    requires forall i :: 0 <= i < |hs| ==> IdealChild(u, d, vs[i], hs[i])
    ensures Extends(s, d) && |s.nodes| < |d.nodes| && d.nodes[|s.nodes|] == box
    ensures forall i :: 0 <= i < |hs| ==> IdealChild(s, d, vs[i], hs[i])
  {
    assert d.nodes[..|s.nodes|] == d.nodes[..|u.nodes|][..|s.nodes|];
    assert d.nodes[|s.nodes|] == d.nodes[..|u.nodes|][|s.nodes|];
  }

  /** Operands lying under the values `tail` that say what to make of them. */
  lemma {:induction false} Under(s: HeapState, vs: seq<Value>, tail: seq<Value>)
    requires Ready(s, vs + tail)
    ensures var t := Drop(s, |tail|);
      && |vs| <= |Stack(t)| && Stack(t)[|Stack(t)| - |vs|..] == vs
      && Stack(t)[..|Stack(t)| - |vs|] == Stack(s)[..|Stack(s)| - |vs| - |tail|]
    ensures forall i :: 0 <= i < |vs| ==> ValueOk(vs[i], |s.nodes|)
    ensures forall k :: 0 <= k < |tail| ==> Top(s, k) == tail[|tail| - 1 - k] && ValueOk(Top(s, k), |s.nodes|)
  {
    hide Sound;
    UnderStack(s, vs, tail);
    forall i | 0 <= i < |vs|
      ensures ValueOk(vs[i], |s.nodes|)
    {
      UnderAt(s, vs, tail, i);
    }
    forall k | 0 <= k < |tail|
      ensures Top(s, k) == tail[|tail| - 1 - k] && ValueOk(Top(s, k), |s.nodes|)
    {
      UnderAt(s, vs, tail, |vs| + (|tail| - 1 - k));
    }
  }

  lemma {:induction false} UnderAt(s: HeapState, vs: seq<Value>, tail: seq<Value>, i: nat)
    requires Ready(s, vs + tail) && i < |vs + tail|
    ensures |vs + tail| <= |Stack(s)| && Stack(s)[|Stack(s)| - |vs + tail| + i] == (vs + tail)[i]
    ensures ValueOk((vs + tail)[i], |s.nodes|)
  {
    hide Closed, AttrTotal, ChildTotal;
    var all := vs + tail;
    assert all[i] == Stack(s)[|Stack(s)| - |all|..][i];
    assert Stack(s)[|Stack(s)| - |all| + i] in Stack(s);
  }

  lemma {:induction false} UnderStack(s: HeapState, vs: seq<Value>, tail: seq<Value>)
    requires Ready(s, vs + tail)
    ensures var t := Drop(s, |tail|);
      && |vs| <= |Stack(t)| && Stack(t)[|Stack(t)| - |vs|..] == vs
      && Stack(t)[..|Stack(t)| - |vs|] == Stack(s)[..|Stack(s)| - |vs| - |tail|]
  {
    hide Sound;
    var all, n := vs + tail, |Stack(s)|;
    assert Stack(s)[n - |all|..][..|vs|] == vs;
  }

  /** A node over boxed operands. */
  lemma {:induction false} OverMany(
    s: HeapState, op: Op, template: Template, vs: seq<Value>, tail: seq<Value>, d: HeapState, hs: seq<int>, n: NodeVal)
    requires Ready(s, vs + tail) && tail != [] && SteadyStep(s, op)
    requires Eval(s, op) == MakeMany(Drop(s, |tail|), template, |vs|)
    requires IdealBoxAll(Drop(s, |tail|), |vs|, []) == Held(d, hs) && BoxedAll(Drop(s, |tail|), vs, d, hs)
    requires ShapeOf(d.nodes, template, hs) == Shape(n) && n.children == hs
    ensures Makes(s, |vs| + |tail|, Step(s, op), n.kind, n.id, n.attrs, vs)
  {
    hide Sound, Eval, Step, Makes, SteadyStep, IdealBoxAll, ShapeOf;
    Under(s, vs, tail);
    var e := IdealStep(s, op).s;
    assert IdealStep(s, op) == PushCreated(Created(Append(d, n), |d.nodes| + 1));
    assert e.nodes == d.nodes + [n];
    assert e.nodes[..|s.nodes|] == d.nodes[..|s.nodes|];
    StepMakes(s, op, |vs| + |tail|, n, vs);
  }

  /** The operands, in order, become the children of a Map node. */
  lemma {:induction false} MapLaw(s: HeapState, vs: seq<Value>)
    requires Ready(s, vs + [Int(|vs|)]) && |vs| <= CHILD_CAPACITY && SteadyStep(s, MakeMap)
    ensures Makes(s, |vs| + 1, Step(s, MakeMap), "Map", "map", [], vs)
  {
    hide Sound, Step, Makes, SteadyStep, BoxedAll, IdealBoxAll;
    Under(s, vs, [Int(|vs|)]);
    var d, hs := IdealOperands(Drop(s, 1), vs, []);
    assert hs + [] == hs;
    BoxedLength(Drop(s, 1), vs, d, hs);
    OverMany(s, MakeMap, MapShape, vs, [Int(|vs|)], d, hs, NodeVal("Map", "map", [], hs));
  }

  lemma {:induction false} BoxedLength(s: HeapState, vs: seq<Value>, d: HeapState, hs: seq<int>)
    requires BoxedAll(s, vs, d, hs)
    ensures |hs| == |vs| <= |Stack(s)| && Extends(s, d)
  {
  }

  /** The operands, in order, become the children of a node with the template's kind, id and attributes. */
  lemma {:induction false} NodeLaw(s: HeapState, vs: seq<Value>, template: int)
    requires Ready(s, vs + [Node(template), Int(|vs|)]) && |vs| <= CHILD_CAPACITY && SteadyStep(s, MakeNode)
    requires InRange(template, |s.nodes|) ==> |s.nodes[template - 1].attrs| <= ATTR_CAPACITY
    ensures InRange(template, |s.nodes|)
    ensures var n := s.nodes[template - 1];
      Makes(s, |vs| + 2, Step(s, MakeNode), n.kind, n.id, n.attrs, vs)
  {
    hide Sound, Step, Makes, SteadyStep, BoxedAll, IdealBoxAll;
    var tail := [Node(template), Int(|vs|)];
    Under(s, vs, tail);
    assert Top(s, 1) == Node(template) && Top(s, 0) == Int(|vs|);
    var n := s.nodes[template - 1];
    var d, hs := IdealOperands(Drop(s, 2), vs, []);
    assert hs + [] == hs;
    BoxedLength(Drop(s, 2), vs, d, hs);
    assert d.nodes[template - 1] == d.nodes[..|s.nodes|][template - 1] == n;
    assert n.attrs[..|n.attrs|] == n.attrs;
    OverMany(s, MakeNode, NodeShape(template, n.attrs), vs, tail, d, hs, NodeVal(n.kind, n.id, n.attrs, hs));
  }

  // ---------- refusals ----------

  /** Too few operands: nothing is taken or made. */
  lemma {:induction false} TooFew(s: HeapState)
    ensures |Stack(s)| < 1 ==>
      forall op :: op in {MakeBlock, MakeMap, Ask(KindOf), Ask(IdOf), Ask(AttrCount), Ask(ChildCount), Pop} ==>
        Step(s, op) == Halted(StackUnderflow)
    ensures |Stack(s)| < 2 ==>
      forall op :: op in {AppendChild, MakeField, MakeNode, ChildAt, Equal, MakeLit(LitInt), AskAttr(KeyAt)} ==>
        Step(s, op) == Halted(StackUnderflow)
    ensures |Stack(s)| < 4 ==> Step(s, MakeErr) == Halted(StackUnderflow)
  {
  }

  /** Operands of the wrong type. */
  lemma {:induction false} WrongType1(s: HeapState)
    requires |Stack(s)| >= 1
    ensures !Top(s, 0).Str? ==> Step(s, MakeBlock) == Halted(TypeMismatch)
    ensures !Top(s, 0).Int? ==> Step(s, MakeMap) == Halted(TypeMismatch)
    ensures !Top(s, 0).Node? ==> forall q :: Step(s, Ask(q)) == Halted(TypeMismatch)
  {
  }

  lemma {:induction false} WrongType2(s: HeapState)
    requires |Stack(s)| >= 2
    ensures !(Top(s, 0).Node? && Top(s, 1).Node?) ==> Step(s, AppendChild) == Halted(TypeMismatch)
    ensures !Top(s, 1).Str? ==> Step(s, MakeField) == Halted(TypeMismatch)
    ensures !(Top(s, 0).Int? && Top(s, 1).Node?) ==>
      Step(s, ChildAt) == Halted(TypeMismatch) && Step(s, MakeNode) == Halted(TypeMismatch)
  {
  }

  // ---------- the argument list ----------

  /** What a program finds at start-up: handle 1 is the Block "argv0", whose children are the arguments in order,
      text literals named by their position. */
  lemma {:induction false} ArgvReads(args: seq<string>, i: nat)
    requires A.Startup(args).Ran? && i < |args|
    ensures var t := A.Startup(args).s;
      && t.roots.argv == 1
      && Reads(t, 1, "Block", "argv0", [], seq(|args|, k => k + 2))
      && Reads(t, i + 2, "Lit", "argv_item_" + D.Decimal(i), [Attr("value", Text(args[i]))], [])
  {
    hide Reads, D.Decimal, A.InitArgv, A.Tidy;
    A.InitExact(args);
    var t := A.Startup(args).s;
    ReadRecord(t, 1);
    ReadRecord(t, i + 2);
  }

  /** EQ on nodes compares names. */
  lemma {:induction false} EqualLaw(t: HeapState, rest: seq<Value>, v: Value, w: Value)
    requires |rest| < STACK_CAPACITY
    ensures Gives(t, rest, [v, w], Equal, Bool(v == w))
  {
    TwoOperands(t, rest, v, w);
  }
}
