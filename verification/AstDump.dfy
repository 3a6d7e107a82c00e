/** The AOSAST1 dump of a tree: length-prefixed text, counts, and an end mark. */
module AstDump {

  datatype AttrKind = StringAttr | IntAttr | BoolAttr | IdentAttr

  datatype Attr = Attr(key: string, kind: AttrKind, value: string)

  datatype Tree = Tree(kind: string, id: string, attrs: seq<Attr>, children: Trees)

  datatype Trees = Nil | Cons(head: Tree, tail: Trees)

  function Length(ts: Trees): nat {
    match ts
    case Nil => 0
    case Cons(_, tail) => 1 + Length(tail)
  }

  // ---------- the format ----------

  predicate IsDigit(c: char) {
    '0' <= c <= '9'
  }

  function Digit(d: nat): (c: char)
    requires d < 10
    ensures IsDigit(c)
  {
    ('0' as int + d) as char
  }

  function Decimal(n: nat): (s: string)
    ensures |s| >= 1 && forall i :: 0 <= i < |s| ==> IsDigit(s[i])
  {
    if n < 10 then [Digit(n)] else Decimal(n / 10) + [Digit(n % 10)]
  }

  /** write_lp */
  function Prefixed(s: string): string {
    Decimal(|s|) + ":" + s
  }

  function KindMark(k: AttrKind): char {
    match k
    case StringAttr => 'S'
    case IntAttr => 'I'
    case BoolAttr => 'B'
    case IdentAttr => 'D'
  }

  function DumpAttr(a: Attr): string {
    "A " + Prefixed(a.key) + " " + [KindMark(a.kind)] + " " + Prefixed(a.value) + "\n"
  }

  function DumpAttrs(attrs: seq<Attr>): string {
    if attrs == [] then "" else DumpAttr(attrs[0]) + DumpAttrs(attrs[1..])
  }

  function Head(t: Tree): string {
    "N " + Prefixed(t.kind) + " " + Prefixed(t.id) + " " + Decimal(|t.attrs|) + " " + Decimal(Length(t.children)) + "\n"
  }

  /** emit_node */
  function Dump(t: Tree): string {
    Head(t) + DumpAttrs(t.attrs) + DumpAll(t.children) + "E\n"
  }

  function DumpAll(ts: Trees): string {
    match ts
    case Nil => ""
    case Cons(head, tail) => Dump(head) + DumpAll(tail)
  }

  // ---------- unique decodability ----------

  function Value(s: string): nat
    requires forall i :: 0 <= i < |s| ==> IsDigit(s[i])
  {
    if s == "" then 0
    else
      assert IsDigit(s[|s| - 1]);
      Value(s[..|s| - 1]) * 10 + (s[|s| - 1] as int - '0' as int)
  }

  lemma {:induction false} DecimalValue(n: nat)
    ensures Value(Decimal(n)) == n
    decreases n
  {
    var s := Decimal(n);
    if n >= 10 {
      DecimalValue(n / 10);
      assert s[..|s| - 1] == Decimal(n / 10);
    } else {
      assert s[..|s| - 1] == "";
    }
  }

  /** What is left of two equal strings after equal-length fronts. */
  lemma {:induction false} Cancel(a: string, x: string, b: string, y: string)
    requires a + x == b + y && |a| == |b|
    ensures a == b && x == y
  {
    assert a == (a + x)[..|a|] == (b + y)[..|b|] == b;
    assert x == (a + x)[|a|..] == (b + y)[|b|..] == y;
  }

  /** A run of digits that a non-digit ends is at least as long as one the same text starts with. */
  lemma {:induction false} NotShorter(a: string, c: char, x: string, b: string, y: string)
    requires a + [c] + x == b + [c] + y && !IsDigit(c) && forall i :: 0 <= i < |b| ==> IsDigit(b[i])
    ensures |a| >= |b|
  {
    var s := a + [c] + x;
    assert s[|a|] == c;
    forall i | 0 <= i < |b|
      ensures IsDigit(s[i])
    {
      assert (b + [c] + y)[i] == b[i];
    }
  }

  /** A number ends at the first character that is no digit. */
  lemma {:induction false} DecimalUnique(m: nat, n: nat, c: char, x: string, y: string)
    requires Decimal(m) + [c] + x == Decimal(n) + [c] + y && !IsDigit(c)
    ensures m == n && x == y
  {
    hide Decimal;
    var a, b := Decimal(m), Decimal(n);
    var s, t := a + [c] + x, b + [c] + y;
    NotShorter(a, c, x, b, y);
    NotShorter(b, c, y, a, x);
    assert a + ([c] + x) == s && b + ([c] + y) == t;
    Cancel(a, [c] + x, b, [c] + y);
    Cancel([c], x, [c], y);
    DecimalValue(m);
    DecimalValue(n);
  }

  lemma {:induction false} PrefixedUnique(s: string, t: string, x: string, y: string)
    requires Prefixed(s) + x == Prefixed(t) + y
    ensures s == t && x == y
  {
    hide Decimal;
    assert Prefixed(s) + x == Decimal(|s|) + ":" + (s + x);
    assert Prefixed(t) + y == Decimal(|t|) + ":" + (t + y);
    DecimalUnique(|s|, |t|, ':', s + x, t + y);
    Cancel(s, x, t, y);
  }

  lemma {:induction false} AttrUnique(a: Attr, b: Attr, x: string, y: string)
    requires DumpAttr(a) + x == DumpAttr(b) + y
    ensures a == b && x == y
  {
    hide Prefixed;
    var ra, rb := " " + [KindMark(a.kind)] + " " + Prefixed(a.value) + "\n" + x, " " + [KindMark(b.kind)] + " " + Prefixed(b.value) + "\n" + y;
    assert DumpAttr(a) + x == "A " + (Prefixed(a.key) + ra);
    assert DumpAttr(b) + y == "A " + (Prefixed(b.key) + rb);
    Cancel("A ", Prefixed(a.key) + ra, "A ", Prefixed(b.key) + rb);
    PrefixedUnique(a.key, b.key, ra, rb);
    var va, vb := Prefixed(a.value) + ("\n" + x), Prefixed(b.value) + ("\n" + y);
    var ma, mb := " " + [KindMark(a.kind)] + " ", " " + [KindMark(b.kind)] + " ";
    assert ra == ma + va && rb == mb + vb;
    Cancel(ma, va, mb, vb);
    assert ma[1] == mb[1];
    PrefixedUnique(a.value, b.value, "\n" + x, "\n" + y);
    Cancel("\n", x, "\n", y);
  }

  lemma {:induction false} AttrsUnique(a: seq<Attr>, b: seq<Attr>, x: string, y: string)
    requires |a| == |b| && DumpAttrs(a) + x == DumpAttrs(b) + y
    ensures a == b && x == y
    decreases |a|
  {
    hide DumpAttr;
    if a != [] {
      var ra, rb := DumpAttrs(a[1..]) + x, DumpAttrs(b[1..]) + y;
      assert DumpAttrs(a) + x == DumpAttr(a[0]) + ra;
      assert DumpAttrs(b) + y == DumpAttr(b[0]) + rb;
      AttrUnique(a[0], b[0], ra, rb);
      AttrsUnique(a[1..], b[1..], x, y);
      assert a == [a[0]] + a[1..] && b == [b[0]] + b[1..];
    } else {
      assert DumpAttrs(a) + x == x && DumpAttrs(b) + y == y;
    }
  }

  lemma {:induction false} HeadUnique(a: Tree, b: Tree, x: string, y: string)
    requires Head(a) + x == Head(b) + y
    ensures a.kind == b.kind && a.id == b.id && |a.attrs| == |b.attrs| && Length(a.children) == Length(b.children)
    ensures x == y
  {
    hide Prefixed, Decimal, Length;
    var na, nb := Decimal(Length(a.children)) + "\n" + x, Decimal(Length(b.children)) + "\n" + y;
    var ca, cb := Decimal(|a.attrs|) + " " + na, Decimal(|b.attrs|) + " " + nb;
    var ia, ib := Prefixed(a.id) + (" " + ca), Prefixed(b.id) + (" " + cb);
    HeadParts(a, x);
    HeadParts(b, y);
    Cancel("N ", Prefixed(a.kind) + (" " + ia), "N ", Prefixed(b.kind) + (" " + ib));
    PrefixedUnique(a.kind, b.kind, " " + ia, " " + ib);
    Cancel(" ", ia, " ", ib);
    PrefixedUnique(a.id, b.id, " " + ca, " " + cb);
    Cancel(" ", ca, " ", cb);
    DecimalUnique(|a.attrs|, |b.attrs|, ' ', na, nb);
    DecimalUnique(Length(a.children), Length(b.children), '\n', x, y);
  }

  lemma {:induction false} HeadParts(t: Tree, x: string)
    ensures Head(t) + x ==
      "N " + (Prefixed(t.kind) + (" " + (Prefixed(t.id) + (" " + (Decimal(|t.attrs|) + " " +
        (Decimal(Length(t.children)) + "\n" + x))))))
  {
    hide Prefixed, Decimal, Length;
  }

  /** The dump is uniquely decodable: whatever follows, equal text means equal trees, attribute kinds, counts
      and nested children included.  So no dump is a proper prefix of another. */
  lemma {:induction false} DumpUnique(a: Tree, b: Tree, x: string, y: string)
    requires Dump(a) + x == Dump(b) + y
    ensures a == b && x == y
    decreases a, 1
  {
    hide Head, DumpAttrs, DumpAll;
    var ea, eb := DumpAll(a.children) + ("E\n" + x), DumpAll(b.children) + ("E\n" + y);
    assert Dump(a) + x == Head(a) + (DumpAttrs(a.attrs) + ea);
    assert Dump(b) + y == Head(b) + (DumpAttrs(b.attrs) + eb);
    HeadUnique(a, b, DumpAttrs(a.attrs) + ea, DumpAttrs(b.attrs) + eb);
    AttrsUnique(a.attrs, b.attrs, ea, eb);
    AllUnique(a.children, b.children, "E\n" + x, "E\n" + y);
    Cancel("E\n", x, "E\n", y);
  }

  lemma {:induction false} AllUnique(a: Trees, b: Trees, x: string, y: string)
    requires Length(a) == Length(b) && DumpAll(a) + x == DumpAll(b) + y
    ensures a == b && x == y
    decreases a, 0
  {
    hide Dump;
    match a
    case Nil => assert DumpAll(a) + x == x && DumpAll(b) + y == y;
    case Cons(_, _) =>
      var ra, rb := DumpAll(a.tail) + x, DumpAll(b.tail) + y;
      assert DumpAll(a) + x == Dump(a.head) + ra;
      assert DumpAll(b) + y == Dump(b.head) + rb;
      DumpUnique(a.head, b.head, ra, rb);
      AllUnique(a.tail, b.tail, x, y);
  }

  /** No dump is a proper prefix of another. */
  lemma {:induction false} PrefixFree(a: Tree, b: Tree)
    requires Dump(a) <= Dump(b)
    ensures a == b
  {
    hide Dump;
    var rest := Dump(b)[|Dump(a)|..];
    assert Dump(a) + rest == Dump(b) + "";
    DumpUnique(a, b, rest, "");
  }

  // ---------- reading it back ----------

  /** What a reader of the format makes of the front of a text. */
  datatype Reading<T> = Got(v: T, rest: string) | Malformed

  /** The text behind a fixed front. */
  function Skip(s: string, front: string): (r: Reading<bool>)
    ensures r.Got? ==> |r.rest| == |s| - |front|
  {
    if front <= s then Got(true, s[|front|..]) else Malformed
  }

  function DigitRun(s: string): (k: nat)
    ensures k <= |s| && forall i :: 0 <= i < k ==> IsDigit(s[i])
  {
    if s != "" && IsDigit(s[0]) then 1 + DigitRun(s[1..]) else 0
  }

  function ReadNumber(s: string): (r: Reading<nat>)
    ensures r.Got? ==> |r.rest| < |s|
  {
    var k := DigitRun(s);
    if k == 0 then Malformed else Got(Value(s[..k]), s[k..])
  }

  /** Length, colon, and that many characters. */
  function ReadText(s: string): (r: Reading<string>)
    ensures r.Got? ==> |r.rest| < |s|
  {
    match ReadNumber(s)
    case Malformed => Malformed
    case Got(n, x) =>
      match Skip(x, ":")
      case Malformed => Malformed
      case Got(_, y) => if n > |y| then Malformed else Got(y[..n], y[n..])
  }

  function ReadKind(c: char): Reading<AttrKind> {
    match c
    case 'S' => Got(StringAttr, "")
    case 'I' => Got(IntAttr, "")
    case 'B' => Got(BoolAttr, "")
    case 'D' => Got(IdentAttr, "")
    case _ => Malformed
  }

  /** The kind mark between two spaces. */
  function ReadMark(s: string): (r: Reading<AttrKind>)
    ensures r.Got? ==> |r.rest| < |s|
  {
    if |s| >= 3 && s[0] == ' ' && s[2] == ' ' && ReadKind(s[1]).Got? then Got(ReadKind(s[1]).v, s[3..]) else Malformed
  }

  function ReadAttr(s: string): (r: Reading<Attr>)
    ensures r.Got? ==> |r.rest| < |s|
  {
    match Skip(s, "A ")
    case Malformed => Malformed
    case Got(_, a) =>
      match ReadText(a)
      case Malformed => Malformed
      case Got(key, b) =>
        match ReadMark(b)
        case Malformed => Malformed
        case Got(kind, c) =>
          match ReadText(c)
          case Malformed => Malformed
          case Got(value, d) =>
            match Skip(d, "\n")
            case Malformed => Malformed
            case Got(_, e) => Got(Attr(key, kind, value), e)
  }

  function ReadAttrs(s: string, n: nat): (r: Reading<seq<Attr>>)
    ensures r.Got? ==> |r.rest| <= |s|
    decreases n
  {
    if n == 0 then Got([], s)
    else
      match ReadAttr(s)
      case Malformed => Malformed
      case Got(a, x) =>
        match ReadAttrs(x, n - 1)
        case Malformed => Malformed
        case Got(more, y) => Got([a] + more, y)
  }

  datatype Front = Front(kind: string, id: string, attrs: nat, children: nat)

  function ReadFront(s: string): (r: Reading<Front>)
    ensures r.Got? ==> |r.rest| < |s|
  {
    match Skip(s, "N ")
    case Malformed => Malformed
    case Got(_, a) =>
      match ReadText(a)
      case Malformed => Malformed
      case Got(kind, b) =>
        match Skip(b, " ")
        case Malformed => Malformed
        case Got(_, c) =>
          match ReadText(c)
          case Malformed => Malformed
          case Got(id, d) =>
            match ReadCounts(d)
            case Malformed => Malformed
            case Got(n, e) => Got(Front(kind, id, n.0, n.1), e)
  }

  function ReadCounts(s: string): (r: Reading<(nat, nat)>)
    ensures r.Got? ==> |r.rest| <= |s|
  {
    match Skip(s, " ")
    case Malformed => Malformed
    case Got(_, a) =>
      match ReadNumber(a)
      case Malformed => Malformed
      case Got(m, b) =>
        match Skip(b, " ")
        case Malformed => Malformed
        case Got(_, c) =>
          match ReadNumber(c)
          case Malformed => Malformed
          case Got(n, d) =>
            match Skip(d, "\n")
            case Malformed => Malformed
            case Got(_, e) => Got((m, n), e)
  }

  function ReadTree(s: string): (r: Reading<Tree>)
    ensures r.Got? ==> |r.rest| < |s|
    decreases |s|, 0
  {
    match ReadFront(s)
    case Malformed => Malformed
    case Got(f, a) => ReadBody(a, f)
  }

  /** What the front announces, and the end mark. */
  function ReadBody(s: string, f: Front): (r: Reading<Tree>)
    ensures r.Got? ==> |r.rest| <= |s|
    decreases |s|, 2
  {
    match ReadAttrs(s, f.attrs)
    case Malformed => Malformed
    case Got(attrs, b) =>
      match ReadTrees(b, f.children)
      case Malformed => Malformed
      case Got(children, c) =>
        match Skip(c, "E\n")
        case Malformed => Malformed
        case Got(_, d) => Got(Tree(f.kind, f.id, attrs, children), d)
  }

  function ReadTrees(s: string, n: nat): (r: Reading<Trees>)
    ensures r.Got? ==> |r.rest| <= |s|
    decreases |s|, 1
  {
    if n == 0 then Got(Nil, s)
    else
      match ReadTree(s)
      case Malformed => Malformed
      case Got(t, x) =>
        match ReadTrees(x, n - 1)
        case Malformed => Malformed
        case Got(more, y) => Got(Cons(t, more), y)
  }

  lemma {:induction false} SkipBack(front: string, x: string)
    ensures Skip(front + x, front) == Got(true, x)
  {
    assert (front + x)[|front|..] == x;
  }

  lemma {:induction false} RunBack(a: string, c: char, x: string)
    requires !IsDigit(c) && forall i :: 0 <= i < |a| ==> IsDigit(a[i])
    ensures DigitRun(a + [c] + x) == |a|
    decreases |a|
  {
    var s := a + [c] + x;
    if a != "" {
      assert s[0] == a[0] && s[1..] == a[1..] + [c] + x;
      RunBack(a[1..], c, x);
    } else {
      assert s[0] == c;
    }
  }

  lemma {:induction false} NumberBack(n: nat, c: char, x: string)
    requires !IsDigit(c)
    ensures ReadNumber(Decimal(n) + ([c] + x)) == Got(n, [c] + x)
  {
    hide Decimal, DigitRun, Value;
    var a := Decimal(n);
    assert a + ([c] + x) == a + [c] + x;
    RunBack(a, c, x);
    DecimalValue(n);
    assert (a + [c] + x)[..|a|] == a && (a + [c] + x)[|a|..] == [c] + x;
  }

  lemma {:induction false} TextBack(t: string, x: string)
    ensures ReadText(Prefixed(t) + x) == Got(t, x)
  {
    hide Decimal, ReadNumber;
    assert Prefixed(t) + x == Decimal(|t|) + ([':'] + (t + x));
    NumberBack(|t|, ':', t + x);
    SkipBack(":", t + x);
    assert (t + x)[..|t|] == t && (t + x)[|t|..] == x;
  }

  lemma {:induction false} AttrBack(a: Attr, x: string)
    ensures ReadAttr(DumpAttr(a) + x) == Got(a, x)
  {
    hide Prefixed, ReadText, Skip;
    var vx := Prefixed(a.value) + ("\n" + x);
    var mark := " " + [KindMark(a.kind)] + " ";
    assert DumpAttr(a) + x == "A " + (Prefixed(a.key) + (mark + vx));
    SkipBack("A ", Prefixed(a.key) + (mark + vx));
    TextBack(a.key, mark + vx);
    MarkBack(a.kind, vx);
    TextBack(a.value, "\n" + x);
    SkipBack("\n", x);
  }

  lemma {:induction false} MarkBack(k: AttrKind, x: string)
    ensures ReadMark(" " + [KindMark(k)] + " " + x) == Got(k, x)
  {
    var s := " " + [KindMark(k)] + " " + x;
    assert s[3..] == x;
  }

  lemma {:induction false} AttrsBack(attrs: seq<Attr>, x: string)
    ensures ReadAttrs(DumpAttrs(attrs) + x, |attrs|) == Got(attrs, x)
    decreases |attrs|
  {
    hide DumpAttr, ReadAttr;
    if attrs == [] {
      assert DumpAttrs(attrs) + x == x;
    } else {
      assert DumpAttrs(attrs) + x == DumpAttr(attrs[0]) + (DumpAttrs(attrs[1..]) + x);
      AttrBack(attrs[0], DumpAttrs(attrs[1..]) + x);
      AttrsBack(attrs[1..], x);
      assert [attrs[0]] + attrs[1..] == attrs;
    }
  }

  lemma {:induction false} CountsBack(m: nat, n: nat, x: string)
    ensures ReadCounts(" " + (Decimal(m) + (" " + (Decimal(n) + ("\n" + x))))) == Got((m, n), x)
  {
    hide Decimal, ReadNumber, Skip;
    SkipBack(" ", Decimal(m) + (" " + (Decimal(n) + ("\n" + x))));
    NumberBack(m, ' ', Decimal(n) + ("\n" + x));
    SkipBack(" ", Decimal(n) + ("\n" + x));
    NumberBack(n, '\n', x);
    SkipBack("\n", x);
  }

  lemma {:induction false} FrontBack(t: Tree, x: string)
    ensures ReadFront(Head(t) + x) == Got(Front(t.kind, t.id, |t.attrs|, Length(t.children)), x)
  {
    hide Prefixed, Decimal, Length, ReadText, ReadCounts, Skip, Head;
    var counts := " " + (Decimal(|t.attrs|) + (" " + (Decimal(Length(t.children)) + ("\n" + x))));
    HeadParts(t, x);
    assert Head(t) + x == "N " + (Prefixed(t.kind) + (" " + (Prefixed(t.id) + counts)));
    SkipBack("N ", Prefixed(t.kind) + (" " + (Prefixed(t.id) + counts)));
    TextBack(t.kind, " " + (Prefixed(t.id) + counts));
    SkipBack(" ", Prefixed(t.id) + counts);
    TextBack(t.id, counts);
    CountsBack(|t.attrs|, Length(t.children), x);
  }

  /** A reader of the format, which knows nothing of the writer, gives the tree back and stops right behind it. */
  lemma {:induction false} ReadBack(t: Tree, x: string)
    ensures ReadTree(Dump(t) + x) == Got(t, x)
    decreases t, 1
  {
    hide Head, DumpAttrs, DumpAll, ReadFront, ReadAttrs, Skip;
    var ex := "E\n" + x;
    assert Dump(t) + x == Head(t) + (DumpAttrs(t.attrs) + (DumpAll(t.children) + ex));
    FrontBack(t, DumpAttrs(t.attrs) + (DumpAll(t.children) + ex));
    AttrsBack(t.attrs, DumpAll(t.children) + ex);
    AllBack(t.children, ex);
    SkipBack("E\n", x);
  }

  lemma {:induction false} AllBack(ts: Trees, x: string)
    ensures ReadTrees(DumpAll(ts) + x, Length(ts)) == Got(ts, x)
    decreases ts, 0
  {
    hide Dump;
    match ts
    case Nil => assert DumpAll(ts) + x == x;
    case Cons(head, tail) =>
      assert DumpAll(ts) + x == Dump(head) + (DumpAll(tail) + x);
      ReadBack(head, DumpAll(tail) + x);
      AllBack(tail, x);
  }

  // ---------- the emitter ----------

  class Emitter {
    var out: string

    constructor ()
      ensures out == ""
    {
      out := "";
    }

    method WritePrefixed(s: string)
      modifies this
      ensures out == old(out) + Prefixed(s)
    {
      out := out + Decimal(|s|) + ":";
      if |s| > 0 {
        out := out + s;
      }
    }

    method WriteAttr(a: Attr)
      modifies this
      ensures out == old(out) + DumpAttr(a)
    {
      hide Prefixed;
      out := out + "A ";
      WritePrefixed(a.key);
      out := out + " ";
      var mark := 'D';
      if a.kind == StringAttr {
        mark := 'S';
      } else if a.kind == IntAttr {
        mark := 'I';
      } else if a.kind == BoolAttr {
        mark := 'B';
      }
      out := out + [mark] + " ";
      WritePrefixed(a.value);
      out := out + "\n";
    }

    method WriteHead(t: Tree)
      modifies this
      ensures out == old(out) + Head(t)
    {
      hide Prefixed, Decimal, Length;
      out := out + "N ";
      WritePrefixed(t.kind);
      out := out + " ";
      WritePrefixed(t.id);
      out := out + " " + Decimal(|t.attrs|) + " " + Decimal(Length(t.children)) + "\n";
    }

    method WriteAttrs(attrs: seq<Attr>)
      modifies this
      ensures out == old(out) + DumpAttrs(attrs)
    {
      hide DumpAttr;
      var i := 0;
      assert attrs[0..] == attrs;
      while i < |attrs|
        invariant 0 <= i <= |attrs| && old(out) + DumpAttrs(attrs) == out + DumpAttrs(attrs[i..])
      {
        assert attrs[i..][1..] == attrs[i + 1..];
        WriteAttr(attrs[i]);
        i := i + 1;
      }
      assert DumpAttrs(attrs[i..]) == "" && out + "" == out;
    }

    method EmitNode(t: Tree)
      modifies this
      ensures out == old(out) + Dump(t)
      decreases t, 1
    {
      hide Head, DumpAttrs, DumpAll;
      WriteHead(t);
      WriteAttrs(t.attrs);
      EmitAll(t.children);
      out := out + "E\n";
    }

    method EmitAll(ts: Trees)
      modifies this
      ensures out == old(out) + DumpAll(ts)
      decreases ts, 0
    {
      hide Dump;
      var c := ts;
      while c.Cons?
        invariant c == ts || c < ts
        invariant old(out) + DumpAll(ts) == out + DumpAll(c)
        decreases c
      {
        EmitNode(c.head);
        c := c.tail;
      }
      assert out + "" == out;
    }
  }
}
