/** The instructions that build and read nodes, split into what the operands ask for and how memory answers.
    A collecting heap and an unbounded one share the first half. */
module HeapOps {
  import opened Values
  import opened Graph
  import opened Heap

  datatype Query = KindOf | IdOf | AttrCount | ChildCount

  datatype AttrQuery = KeyAt | KindAt | StringAt | IntAt | BoolAt

  datatype LitKind = LitString | LitInt | LitBool

  datatype Op =
    | MakeBlock
    | AppendChild
    | MakeErr
    | MakeLit(kind: LitKind)
    | MakeField
    | MakeMap
    | MakeNode
    | ChildAt
    | Ask(query: Query)
    | AskAttr(attrQuery: AttrQuery)
    | Equal
    /** Stack and locals traffic around them. */
    | Push(v: Value)
    | Pop
    | Load(slot: nat)
    | Store(slot: nat)
    /** The system call that fetches the argument list. */
    | Args
    /** The prologue of a function of `count` parameters: its run of stores, the last argument first.  The first
        store opens all the slots at once, and the others fill them; nothing is allocated in between. */
    | Enter(count: nat)
    /** A return to a frame whose operands start at `base`, with `kept` locals below the callee's. */
    | Leave(base: nat, kept: nat)

  /** What MAKE_MAP and MAKE_NODE build.  MAKE_NODE has popped its template and copied the attributes, and
      comes back to the template's slot for kind, id and attribute count once the operands are boxed. */
  datatype Template = MapShape | NodeShape(handle: int, attrs: seq<Attr>)

  /** What an instruction needs from the heap. */
  datatype Action =
    | Stop(e: HeapError)
    | Next(s: HeapState)
    /** Allocate a node and push its handle. */
    | Make(s: HeapState, n: NodeVal)
    /** Allocate a box for a plain value, then a field node around it. */
    | MakeBoxed(s: HeapState, box: NodeVal, key: string)
    /** Pop operands, boxing the plain ones one after the other, then allocate a node over them. */
    | MakeMany(s: HeapState, template: Template, count: nat)

  function Stack(s: HeapState): seq<Value> {
    s.roots.stack
  }

  function WithStack(s: HeapState, stack: seq<Value>): HeapState {
    s.(roots := s.roots.(stack := stack))
  }

  function Top(s: HeapState, k: nat): Value
    requires k < |Stack(s)|
  {
    Stack(s)[|Stack(s)| - 1 - k]
  }

  function Drop(s: HeapState, k: nat): HeapState
    requires k <= |Stack(s)|
  {
    WithStack(s, Stack(s)[..|Stack(s)| - k])
  }

  function PushValue(s: HeapState, v: Value): (a: Action)
    ensures a.Next? || a.Stop?
  {
    if |Stack(s)| < STACK_CAPACITY then Next(WithStack(s, Stack(s) + [v])) else Stop(StackOverflow)
  }

  /** lookup_node succeeds. */
  predicate IsNode(s: HeapState, v: Value) {
    v.Node? && InRange(v.handle, |s.nodes|)
  }

  function NodeOf(s: HeapState, v: Value): NodeVal
    requires IsNode(s, v)
  {
    s.nodes[v.handle - 1]
  }

  predicate AllNodes(vs: seq<Value>) {
    forall v :: v in vs ==> v.Node?
  }

  /** create_runtime_node_from_value on anything but a node. */
  function Boxed(v: Value): (n: NodeVal)
    ensures n.children == [] && |n.attrs| <= 3
  {
    match v
    case Str(s) => NodeVal("Lit", "runtime_string", [Attr("value", Text(s))], [])
    case Int(n) => NodeVal("Lit", "runtime_int", [Attr("value", IntAttr(n))], [])
    case Bool(b) => NodeVal("Lit", "runtime_bool", [Attr("value", BoolAttr(b))], [])
    case Null => NodeVal("Null", "runtime_null", [], [])
    case Bytes(data) => NodeVal("Lit", "runtime_bytes", [Attr("byteLength", IntAttr(|data|))], [])
    case Void => NodeVal("Block", "void", [], [])
    case _ => NodeVal("Err", "runtime_err",
      [Attr("code", Identifier("RUN030")), Attr("message", Text("Unsupported runtime value.")),
       Attr("nodeId", Identifier("runtime"))], [])
  }

  function FieldNode(key: string, child: int): NodeVal {
    NodeVal("Field", "field", [Attr("key", Text(key))], [child])
  }

  function Answer(n: NodeVal, q: Query): Value {
    match q
    case KindOf => Str(n.kind)
    case IdOf => Str(n.id)
    case AttrCount => Int(|n.attrs|)
    case ChildCount => Int(|n.children|)
  }

  /** Attribute reads give a neutral value when the index or the kind does not match. */
  function AttrAnswer(n: NodeVal, i: int, q: AttrQuery): Value {
    var found := 0 <= i < |n.attrs|;
    match q
    case KeyAt => Str(if found then n.attrs[i].key else "")
    case KindAt => Str(if found then KindName(n.attrs[i].value) else "")
    case StringAt =>
      Str(if found && (n.attrs[i].value.Identifier? || n.attrs[i].value.Text?) then n.attrs[i].value.s else "")
    case IntAt => Int(if found && n.attrs[i].value.IntAttr? then n.attrs[i].value.n else 0)
    case BoolAt => Bool(if found && n.attrs[i].value.BoolAttr? then n.attrs[i].value.b else false)
  }

  function KindName(v: AttrValue): string {
    match v
    case Identifier(_) => "identifier"
    case Text(_) => "string"
    case IntAttr(_) => "int"
    case BoolAttr(_) => "bool"
  }

  function EvalAppendChild(s: HeapState): Action
    requires |Stack(s)| >= 2
  {
    var base, child := Top(s, 1), Top(s, 0);
    if !IsNode(s, base) || !IsNode(s, child) then Stop(TypeMismatch)
    else
      var n := NodeOf(s, base);
      if |n.attrs| > ATTR_CAPACITY || |n.children| + 1 > CHILD_CAPACITY then Stop(InvalidProgram)
      else Make(Drop(s, 2), n.(children := n.children + [child.handle]))
  }

  function EvalMakeErr(s: HeapState): Action
    requires |Stack(s)| >= 4
  {
    var id, code, message, nodeId := Top(s, 3), Top(s, 2), Top(s, 1), Top(s, 0);
    if !id.Str? || !code.Str? || !message.Str? || !nodeId.Str? then Stop(TypeMismatch)
    else Make(Drop(s, 4), NodeVal("Err", id.s,
      [Attr("code", Identifier(code.s)), Attr("message", Text(message.s)), Attr("nodeId", Identifier(nodeId.s))], []))
  }

  function EvalMakeLit(s: HeapState, kind: LitKind): Action
    requires |Stack(s)| >= 2
  {
    var id, v := Top(s, 1), Top(s, 0);
    var ok := match kind case LitString => v.Str? case LitInt => v.Int? case LitBool => v.Bool?;
    if !id.Str? || !ok then Stop(TypeMismatch)
    else
      var a := match kind case LitString => Text(v.s) case LitInt => IntAttr(v.n) case LitBool => BoolAttr(v.b);
      Make(Drop(s, 2), NodeVal("Lit", id.s, [Attr("value", a)], []))
  }

  function EvalMakeField(s: HeapState): Action
    requires |Stack(s)| >= 2
  {
    var key, v := Top(s, 1), Top(s, 0);
    if !key.Str? then Stop(TypeMismatch)
    else if v.Node? then Make(Drop(s, 2), FieldNode(key.s, v.handle))
    else MakeBoxed(Drop(s, 2), Boxed(v), key.s)
  }

  /** The top `count` values become the children of a new node.  `width` is the number of its attributes. */
  function Gather(s: HeapState, template: Template, width: nat, count: nat): Action {
    if count > CHILD_CAPACITY || width > ATTR_CAPACITY || |Stack(s)| < count then Stop(InvalidProgram)
    else MakeMany(s, template, count)
  }

  function EvalMakeMap(s: HeapState): Action
    requires |Stack(s)| >= 1
  {
    var count := Top(s, 0);
    if !count.Int? || count.n < 0 then Stop(TypeMismatch)
    else Gather(Drop(s, 1), MapShape, 0, count.n)
  }

  function EvalMakeNode(s: HeapState): Action
    requires |Stack(s)| >= 2
  {
    var shape, count := Top(s, 1), Top(s, 0);
    if !count.Int? || count.n < 0 || !IsNode(s, shape) then Stop(TypeMismatch)
    else
      var n := NodeOf(s, shape);
      Gather(Drop(s, 2), NodeShape(shape.handle, n.attrs), |n.attrs|, count.n)
  }

  function EvalChildAt(s: HeapState): Action
    requires |Stack(s)| >= 2
  {
    var base, index := Top(s, 1), Top(s, 0);
    if !index.Int? || !IsNode(s, base) then Stop(TypeMismatch)
    else if index.n < 0 || index.n >= |NodeOf(s, base).children| then Stop(InvalidProgram)
    else PushValue(Drop(s, 2), Node(NodeOf(s, base).children[index.n]))
  }

  function EvalStore(s: HeapState, slot: nat): Action
    requires |Stack(s)| >= 1
  {
    var t, v, locals := Drop(s, 1), Top(s, 0), s.roots.locals;
    if slot < |locals| then Next(t.(roots := t.roots.(locals := locals[slot := v])))
    else if slot >= LOCALS_CAPACITY then Stop(LocalOutOfRange)
    else if slot == |locals| then Next(t.(roots := t.roots.(locals := locals + [v])))
    else Stop(NotModelled)
  }

  function EvalEnter(s: HeapState, count: nat): Action
    requires |Stack(s)| >= count
  {
    var t, vs, locals := Drop(s, count), Stack(s)[|Stack(s)| - count..], s.roots.locals;
    if |locals| + count > LOCALS_CAPACITY then Stop(LocalOutOfRange)
    else Next(t.(roots := t.roots.(locals := locals + vs)))
  }

  /** The return value, if there is one, is on top of the caller's operands already. */
  function EvalLeave(s: HeapState, base: nat, kept: nat): Action {
    if base > |Stack(s)| || kept > |s.roots.locals| || |Stack(s)| > base + 1 then Stop(InvalidProgram)
    else Next(s.(roots := s.roots.(locals := s.roots.locals[..kept])))
  }

  function Arity(op: Op): nat {
    match op
    case MakeErr => 4
    case AppendChild => 2
    case MakeLit(_) => 2
    case MakeField => 2
    case MakeNode => 2
    case ChildAt => 2
    case AskAttr(_) => 2
    case Equal => 2
    case Push(_) => 0
    case Load(_) => 0
    case Args => 0
    case Enter(count) => count
    case Leave(_, _) => 0
    case _ => 1
  }

  function Eval(s: HeapState, op: Op): Action {
    if |Stack(s)| < Arity(op) then Stop(StackUnderflow)
    else
      match op
      case MakeBlock =>
        if !Top(s, 0).Str? then Stop(TypeMismatch) else Make(Drop(s, 1), NodeVal("Block", Top(s, 0).s, [], []))
      case AppendChild => EvalAppendChild(s)
      case MakeErr => EvalMakeErr(s)
      case MakeLit(kind) => EvalMakeLit(s, kind)
      case MakeField => EvalMakeField(s)
      case MakeMap => EvalMakeMap(s)
      case MakeNode => EvalMakeNode(s)
      case ChildAt => EvalChildAt(s)
      case Ask(q) =>
        if !IsNode(s, Top(s, 0)) then Stop(TypeMismatch) else PushValue(Drop(s, 1), Answer(NodeOf(s, Top(s, 0)), q))
      case AskAttr(q) =>
        if !Top(s, 0).Int? || !IsNode(s, Top(s, 1)) then Stop(TypeMismatch)
        else PushValue(Drop(s, 2), AttrAnswer(NodeOf(s, Top(s, 1)), Top(s, 0).n, q))
      case Equal => PushValue(Drop(s, 2), Bool(Top(s, 1) == Top(s, 0)))
      case Push(v) => if v.Node? then Stop(NotModelled) else PushValue(s, v)
      case Pop => Next(Drop(s, 1))
      case Load(slot) => if slot >= |s.roots.locals| then Stop(LocalOutOfRange) else PushValue(s, s.roots.locals[slot])
      case Store(slot) => EvalStore(s, slot)
      case Args => if s.roots.argv <= 0 then Stop(NotModelled) else PushValue(s, Node(s.roots.argv))
      case Enter(count) => EvalEnter(s, count)
      case Leave(base, kept) => EvalLeave(s, base, kept)
  }

  datatype StepResult = Ran(s: HeapState) | Halted(e: HeapError)

  function Answered(a: Action): StepResult
    requires a.Next? || a.Stop?
  {
    match a
    case Next(s) => Ran(s)
    case Stop(e) => Halted(e)
  }

  // ---------- operands held in C locals ----------

  /** Handles the instruction holds, in operand order. */
  datatype Boxes = Held(s: HeapState, handles: seq<int>) | Unheld(e: HeapError)

  /** create_runtime_node_from_value for each of the top `count` values, the last operand first.  The operands
      are off the stack by then, and their handles are known to nobody else. */
  ghost function BoxAll(s: HeapState, count: nat, handles: seq<int>): Boxes
    decreases count
  {
    if count == 0 then Held(s, handles)
    else if Stack(s) == [] then Unheld(StackUnderflow)
    else
      var v, t := Top(s, 0), Drop(s, 1);
      if v.Node? then BoxAll(t, count - 1, [v.handle] + handles)
      else
        match Create(t, Boxed(v))
        case Refused(e) => Unheld(e)
        case Created(u, h) => BoxAll(u, count - 1, [h] + handles)
  }

  datatype Shaped = Shape(n: NodeVal) | Torn

  /** `Torn` if the template's slot holds no record any more, or one with more attributes than were copied. */
  function ShapeOf(nodes: seq<NodeVal>, template: Template, children: seq<int>): Shaped {
    match template
    case MapShape => Shape(NodeVal("Map", "map", [], children))
    case NodeShape(h, attrs) =>
      if !InRange(h, |nodes|) || |nodes[h - 1].attrs| > |attrs| then Torn
      else Shape(NodeVal(nodes[h - 1].kind, nodes[h - 1].id, attrs[..|nodes[h - 1].attrs|], children))
  }

  /** One instruction on the bounded, collecting heap. */
  ghost function Step(s: HeapState, op: Op): StepResult {
    match Eval(s, op)
    case Stop(e) => Halted(e)
    case Next(t) => Ran(t)
    case Make(t, n) => PushCreated(Create(t, n))
    case MakeBoxed(t, box, key) =>
      (match Create(t, box)
       case Refused(e) => Halted(e)
       case Created(u, h) => PushCreated(Create(u, FieldNode(key, h))))
    case MakeMany(t, template, count) => Gathered(t, template, count)
  }

  ghost function Gathered(s: HeapState, template: Template, count: nat): StepResult {
    match BoxAll(s, count, [])
    case Unheld(e) => Halted(e)
    case Held(u, handles) =>
      match ShapeOf(u.nodes, template, handles)
      case Torn => Halted(NotModelled)
      case Shape(n) => PushCreated(Create(u, n))
  }

  function PushCreated(o: Outcome): StepResult {
    match o
    case Refused(e) => Halted(e)
    case Created(s, h) => Answered(PushValue(s, Node(h)))
  }

  function IdealBoxAll(s: HeapState, count: nat, handles: seq<int>): Boxes
    decreases count
  {
    if count == 0 then Held(s, handles)
    else if Stack(s) == [] then Unheld(StackUnderflow)
    else
      var v, t := Top(s, 0), Drop(s, 1);
      if v.Node? then IdealBoxAll(t, count - 1, [v.handle] + handles)
      else IdealBoxAll(Append(t, Boxed(v)), count - 1, [|t.nodes| + 1] + handles)
  }

  /** The same instruction on an unbounded heap that never collects. */
  function IdealStep(s: HeapState, op: Op): StepResult {
    match Eval(s, op)
    case Stop(e) => Halted(e)
    case Next(t) => Ran(t)
    case Make(t, n) => PushCreated(Created(Append(t, n), |t.nodes| + 1))
    case MakeBoxed(t, box, key) =>
      var u := Append(t, box);
      PushCreated(Created(Append(u, FieldNode(key, |u.nodes|)), |u.nodes| + 1))
    case MakeMany(t, template, count) => IdealGathered(t, template, count)
  }

  function IdealGathered(s: HeapState, template: Template, count: nat): StepResult {
    match IdealBoxAll(s, count, [])
    case Unheld(e) => Halted(e)
    case Held(u, handles) =>
      match ShapeOf(u.nodes, template, handles)
      case Torn => Halted(NotModelled)
      case Shape(n) => PushCreated(Created(Append(u, n), |u.nodes| + 1))
  }

  ghost function Run(s: HeapState, ops: seq<Op>): StepResult
    decreases |ops|
  {
    if ops == [] then Ran(s)
    else
      match Step(s, ops[0])
      case Halted(e) => Halted(e)
      case Ran(t) => Run(t, ops[1..])
  }

  function IdealRun(s: HeapState, ops: seq<Op>): StepResult
    decreases |ops|
  {
    if ops == [] then Ran(s)
    else
      match IdealStep(s, ops[0])
      case Halted(e) => Halted(e)
      case Ran(t) => IdealRun(t, ops[1..])
  }
}
