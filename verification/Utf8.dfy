/** UTF-8 (section 4 of RFC 3629): the validator, and slicing by runes. */
module Utf8 {
  import opened Values

  // ---------- what UTF-8 is ----------

  predicate IsScalar(c: nat) {
    0 < c < 0xD800 || 0xE000 <= c < 0x11_0000
  }

  predicate AreScalars(cs: seq<nat>) {
    forall i :: 0 <= i < |cs| ==> IsScalar(cs[i])
  }

  function Encode(c: nat): (b: seq<byte>)
    requires IsScalar(c)
    ensures 1 <= |b| <= 4
  {
    if c < 0x80 then [c as byte]
    else if c < 0x800 then [(0xC0 + c / 0x40) as byte, (0x80 + c % 0x40) as byte]
    else if c < 0x1_0000 then
      [(0xE0 + c / 0x1000) as byte, (0x80 + c / 0x40 % 0x40) as byte, (0x80 + c % 0x40) as byte]
    else
      [(0xF0 + c / 0x4_0000) as byte, (0x80 + c / 0x1000 % 0x40) as byte, (0x80 + c / 0x40 % 0x40) as byte,
       (0x80 + c % 0x40) as byte]
  }

  function EncodeAll(cs: seq<nat>): seq<byte>
    requires AreScalars(cs)
  {
    if cs == [] then [] else Encode(cs[0]) + EncodeAll(cs[1..])
  }

  // ---------- the validator ----------

  predicate IsTail(x: byte) {
    0x80 <= x <= 0xBF
  }

  /** Length of the well-formed character in front, 0 if there is none. */
  function Width(b: seq<byte>): (n: nat)
    ensures n <= 4 && n <= |b|
  {
    if b == [] || b[0] == 0 then 0
    else if b[0] <= 0x7F then 1
    else if 0xC2 <= b[0] <= 0xDF then
      if |b| >= 2 && IsTail(b[1]) then 2 else 0
    else if 0xE0 <= b[0] <= 0xEF then
      if |b| >= 3 && SecondOk(b[0], b[1]) && IsTail(b[2]) then 3 else 0
    else if 0xF0 <= b[0] <= 0xF4 then
      if |b| >= 4 && SecondOk(b[0], b[1]) && IsTail(b[2]) && IsTail(b[3]) then 4 else 0
    else 0
  }

  /** The second byte: overlong forms, surrogates and values past the last scalar are excluded here. */
  predicate SecondOk(first: byte, second: byte) {
    if first == 0xE0 then 0xA0 <= second <= 0xBF
    else if first == 0xED then 0x80 <= second <= 0x9F
    else if first == 0xF0 then 0x90 <= second <= 0xBF
    else if first == 0xF4 then 0x80 <= second <= 0x8F
    else IsTail(second)
  }

  /** native_is_valid_utf8_without_nul */
  predicate Valid(b: seq<byte>)
    decreases |b|
  {
    b == [] || (Width(b) > 0 && Valid(b[Width(b)..]))
  }

  /** The scalar a well-formed character stands for. */
  function Head(b: seq<byte>): (c: nat)
    requires Width(b) > 0
  {
    match Width(b)
    case 1 => b[0] as nat
    case 2 => (b[0] as nat - 0xC0) * 0x40 + (b[1] as nat - 0x80)
    case 3 => (b[0] as nat - 0xE0) * 0x1000 + (b[1] as nat - 0x80) * 0x40 + (b[2] as nat - 0x80)
    case _ =>
      (b[0] as nat - 0xF0) * 0x4_0000 + (b[1] as nat - 0x80) * 0x1000 + (b[2] as nat - 0x80) * 0x40 +
      (b[3] as nat - 0x80)
  }

  function Scalars(b: seq<byte>): (cs: seq<nat>)
    requires Valid(b)
    decreases |b|
  {
    if b == [] then [] else [Head(b)] + Scalars(b[Width(b)..])
  }

  /** The bytes in front are the encoding of the scalar they stand for. */
  lemma {:induction false} HeadEncodes(b: seq<byte>)
    requires Width(b) > 0
    ensures IsScalar(Head(b)) && Encode(Head(b)) == b[..Width(b)]
  {
    match Width(b)
    case 1 =>
    case 2 => TwoBytes(b);
    case 3 => ThreeBytes(b);
    case _ => FourBytes(b);
  }

  lemma {:induction false} TwoBytes(b: seq<byte>)
    requires Width(b) == 2
    ensures IsScalar(Head(b)) && Encode(Head(b)) == b[..2]
  {
    var x, y, c := b[0] as nat - 0xC0, b[1] as nat - 0x80, Head(b);
    assert c / 0x40 == x && c % 0x40 == y;
  }

  lemma {:induction false} ThreeBytes(b: seq<byte>)
    requires Width(b) == 3
    ensures IsScalar(Head(b)) && Encode(Head(b)) == b[..3]
  {
    var x, y, z, c := b[0] as nat - 0xE0, b[1] as nat - 0x80, b[2] as nat - 0x80, Head(b);
    assert c / 0x1000 == x && c / 0x40 == x * 0x40 + y && c % 0x40 == z;
    assert c / 0x40 % 0x40 == y;
  }

  lemma {:induction false} FourBytes(b: seq<byte>)
    requires Width(b) == 4
    ensures IsScalar(Head(b)) && Encode(Head(b)) == b[..4]
  {
    var x, y, z, w, c := b[0] as nat - 0xF0, b[1] as nat - 0x80, b[2] as nat - 0x80, b[3] as nat - 0x80, Head(b);
    assert c / 0x4_0000 == x && c / 0x1000 == x * 0x40 + y && c / 0x40 == x * 0x1000 + y * 0x40 + z && c % 0x40 == w;
    assert c / 0x1000 % 0x40 == y && c / 0x40 % 0x40 == z;
  }

  /** An encoding in front is accepted, whatever follows it. */
  lemma {:induction false} EncodeAccepted(c: nat, rest: seq<byte>)
    requires IsScalar(c)
    ensures var b := Encode(c) + rest; Width(b) == |Encode(c)| && Head(b) == c && b[Width(b)..] == rest
  {
    var e := Encode(c);
    var b := e + rest;
    assert b[|e|..] == rest;
    EncodeWidth(c);
    WidthPrefix(e, rest);
  }

  lemma {:induction false} EncodeWidth(c: nat)
    requires IsScalar(c)
    ensures Width(Encode(c)) == |Encode(c)| && Head(Encode(c)) == c
  {
    if c < 0x800 {
    } else if c < 0x1_0000 {
      EncodeThree(c);
    } else {
      EncodeFour(c);
    }
  }

  lemma {:induction false} EncodeThree(c: nat)
    requires IsScalar(c) && 0x800 <= c < 0x1_0000
    ensures Width(Encode(c)) == 3 && Head(Encode(c)) == c
  {
    assert c / 0x40 == c / 0x1000 * 0x40 + c / 0x40 % 0x40;
    assert c == c / 0x40 * 0x40 + c % 0x40;
  }

  lemma {:induction false} EncodeFour(c: nat)
    requires IsScalar(c) && 0x1_0000 <= c
    ensures Width(Encode(c)) == 4 && Head(Encode(c)) == c
  {
    assert c / 0x1000 == c / 0x4_0000 * 0x40 + c / 0x1000 % 0x40;
    assert c / 0x40 == c / 0x1000 * 0x40 + c / 0x40 % 0x40;
    assert c == c / 0x40 * 0x40 + c % 0x40;
  }

  lemma {:induction false} WidthPrefix(e: seq<byte>, rest: seq<byte>)
    requires Width(e) == |e| && |e| > 0
    ensures Width(e + rest) == |e| && Head(e + rest) == Head(e)
  {
    assert forall i :: 0 <= i < |e| ==> (e + rest)[i] == e[i];
  }

  /** What the validator accepts is a sequence of encodings. */
  lemma {:induction false} ValidEncodes(b: seq<byte>)
    requires Valid(b)
    ensures AreScalars(Scalars(b)) && EncodeAll(Scalars(b)) == b
    decreases |b|
  {
    hide Encode, Head, Width, IsScalar;
    if b != [] {
      var rest := b[Width(b)..];
      HeadEncodes(b);
      ValidEncodes(rest);
      var cs := [Head(b)] + Scalars(rest);
      assert cs[1..] == Scalars(rest);
      assert b[..Width(b)] + rest == b;
    }
  }

  /** Every sequence of encodings is accepted, and means the scalars it was made from. */
  lemma {:induction false} EncodesValid(cs: seq<nat>)
    requires AreScalars(cs)
    ensures Valid(EncodeAll(cs)) && Scalars(EncodeAll(cs)) == cs
    decreases |cs|
  {
    hide Encode, Head, Width, IsScalar;
    if cs != [] {
      EncodesValid(cs[1..]);
      EncodeAccepted(cs[0], EncodeAll(cs[1..]));
      assert [cs[0]] + cs[1..] == cs;
    }
  }

  /** The validator accepts exactly the encodings of sequences of non-zero scalar values. */
  lemma {:induction false} ValidExact(b: seq<byte>)
    ensures Valid(b) <==> exists cs :: AreScalars(cs) && EncodeAll(cs) == b
  {
    hide Valid, Scalars, EncodeAll;
    if Valid(b) {
      ValidEncodes(b);
    }
    if cs :| AreScalars(cs) && EncodeAll(cs) == b {
      EncodesValid(cs);
    }
  }

  /** native_is_valid_utf8_without_nul, as the loop it is. */
  method Validate(data: array<byte>) returns (ok: bool)
    ensures ok <==> Valid(data[..])
  {
    hide Width;
    var i := 0;
    assert data[0..] == data[..];
    while i < data.Length
      invariant 0 <= i <= data.Length && (Valid(data[..]) <==> Valid(data[i..]))
    {
      var n := WidthAt(data, i);
      if n == 0 {
        return false;
      }
      assert data[i..][n..] == data[i + n..];
      i := i + n;
    }
    assert data[i..] == [];
    ok := true;
  }

  /** The byte tests of one round of the loop. */
  method WidthAt(data: array<byte>, i: nat) returns (n: nat)
    requires i < data.Length
    ensures n == Width(data[i..])
  {
    var b0 := data[i];
    if b0 == 0 {
      return 0;
    }
    if b0 <= 0x7F {
      return 1;
    }
    if b0 >= 0xC2 && b0 <= 0xDF {
      if i + 1 >= data.Length || !IsTail(data[i + 1]) {
        return 0;
      }
      return 2;
    }
    if b0 >= 0xE0 && b0 <= 0xEF {
      if i + 2 >= data.Length || !SecondOk(b0, data[i + 1]) || !IsTail(data[i + 2]) {
        return 0;
      }
      return 3;
    }
    if b0 >= 0xF0 && b0 <= 0xF4 {
      if i + 3 >= data.Length || !SecondOk(b0, data[i + 1]) || !IsTail(data[i + 2]) || !IsTail(data[i + 3]) {
        return 0;
      }
      return 4;
    }
    n := 0;
  }

  // ---------- runes ----------

  /** The text as a C string: a zero byte behind the last one. */
  function ByteAt(t: seq<byte>, i: nat): byte {
    if i < |t| then t[i] else 0
  }

  /** utf8_next_index: a character, or one stray byte. */
  function Next(t: seq<byte>, i: nat): (j: nat)
    requires i < |t|
    ensures i < j <= |t|
  {
    var ch := t[i];
    if ch < 0x80 then i + 1
    else if 0xC0 <= ch < 0xE0 && IsTail(ByteAt(t, i + 1)) then i + 2
    else if 0xE0 <= ch < 0xF0 && IsTail(ByteAt(t, i + 1)) && IsTail(ByteAt(t, i + 2)) then i + 3
    else if 0xF0 <= ch < 0xF8 && IsTail(ByteAt(t, i + 1)) && IsTail(ByteAt(t, i + 2)) && IsTail(ByteAt(t, i + 3)) then
      i + 4
    else i + 1
  }

  /** Bytes of the character in front if its lead byte is followed by as many continuation bytes as it announces. */
  predicate Announced(t: seq<byte>, i: nat, n: nat)
    requires i < |t|
  {
    && i + n <= |t| && (forall k :: i < k < i + n ==> 0x80 <= t[k] <= 0xBF)
    && match n
       case 2 => 0xC0 <= t[i] <= 0xDF
       case 3 => 0xE0 <= t[i] <= 0xEF
       case 4 => 0xF0 <= t[i] <= 0xF7
       case _ => false
  }

  /** The VM steps over a whole character where one is announced and complete, and over one byte anywhere else. */
  lemma {:induction false} NextExact(t: seq<byte>, i: nat)
    requires i < |t|
    ensures Next(t, i) == i + 2 <==> Announced(t, i, 2)
    ensures Next(t, i) == i + 3 <==> Announced(t, i, 3)
    ensures Next(t, i) == i + 4 <==> Announced(t, i, 4)
    ensures Next(t, i) <= i + 4
  {
  }

  /** Runes from byte `i` on. */
  function RuneCount(t: seq<byte>, i: nat): nat
    requires i <= |t|
    decreases |t| - i
  {
    if i == |t| then 0 else 1 + RuneCount(t, Next(t, i))
  }

  /** Where rune `k`, counted from byte `i`, starts. */
  function Offset(t: seq<byte>, i: nat, k: nat): (j: nat)
    requires i <= |t|
    ensures i <= j <= |t|
    decreases k
  {
    if i == |t| || k == 0 then i else Offset(t, Next(t, i), k - 1)
  }

  lemma {:induction false} OffsetGrows(t: seq<byte>, i: nat, j: nat, k: nat)
    requires i <= |t| && j <= k
    ensures Offset(t, i, j) <= Offset(t, i, k)
    decreases k
  {
    if i < |t| && j > 0 {
      OffsetGrows(t, Next(t, i), j - 1, k - 1);
    }
  }

  function Clamp(v: int, max: nat): (k: nat)
    ensures k <= max
  {
    if v <= 0 then 0 else if v >= max then max else v
  }

  datatype Span = Span(from: nat, to: nat)

  /** The bytes of `length` runes from rune `start`, both cut to the text. */
  function SpanOf(t: seq<byte>, start: int, length: int): (s: Span)
    ensures s.from <= s.to <= |t|
  {
    var n := RuneCount(t, 0);
    var first := Clamp(start, n);
    var last := Clamp(start + length, n);
    var from, to := Offset(t, 0, first), Offset(t, 0, if last < first then first else last);
    OffsetGrows(t, 0, first, if last < first then first else last);
    Span(from, to)
  }

  /** push_substring_by_runes */
  function Substring(t: seq<byte>, start: int, length: int): seq<byte>
    requires IsInt64(start + length)
  {
    if length <= 0 then [] else var s := SpanOf(t, start, length); t[s.from..s.to]
  }

  /** push_remove_by_runes */
  function Remove(t: seq<byte>, start: int, length: int): seq<byte>
    requires IsInt64(start + length)
  {
    if length <= 0 then t else var s := SpanOf(t, start, length); t[..s.from] + t[s.to..]
  }

  /** On accepted text the VM steps exactly one character at a time. */
  lemma {:induction false} NextIsWidth(t: seq<byte>, i: nat)
    requires i < |t| && Width(t[i..]) > 0
    ensures Next(t, i) == i + Width(t[i..])
  {
    var b := t[i..];
    assert forall k :: 0 <= k < |b| ==> b[k] == t[i + k];
  }

  lemma {:induction false} CountScalars(t: seq<byte>, i: nat)
    requires i <= |t| && Valid(t[i..])
    ensures RuneCount(t, i) == |Scalars(t[i..])|
    decreases |t| - i
  {
    hide Width, Head, Next;
    if i < |t| {
      NextIsWidth(t, i);
      var n := Width(t[i..]);
      assert t[i..][n..] == t[i + n..];
      CountScalars(t, i + n);
    }
  }

  lemma {:induction false} EncodeHead(cs: seq<nat>, k: nat)
    requires AreScalars(cs) && 0 < k <= |cs|
    ensures AreScalars(cs[..k]) && AreScalars(cs[1..][..k - 1])
    ensures EncodeAll(cs[..k]) == Encode(cs[0]) + EncodeAll(cs[1..][..k - 1])
  {
    hide Encode, IsScalar;
    assert cs[..k][1..] == cs[1..][..k - 1];
  }

  /** Where a rune starts, the scalars split. */
  lemma {:induction false} OffsetSplits(t: seq<byte>, i: nat, k: nat)
    requires i <= |t| && Valid(t[i..]) && k <= |Scalars(t[i..])|
    ensures var j := Offset(t, i, k);
      && Valid(t[j..]) && Scalars(t[j..]) == Scalars(t[i..])[k..]
      && AreScalars(Scalars(t[i..])[..k]) && t[i..j] == EncodeAll(Scalars(t[i..])[..k])
    decreases k
  {
    hide Width, Head, Next, Encode, EncodeAll, IsScalar, AreScalars, Valid, Scalars;
    ValidEncodes(t[i..]);
    var cs := Scalars(t[i..]);
    if k == 0 {
      EncodeNothing(cs);
      assert t[i..i] == [];
    } else {
      ScalarsHead(t[i..]);
      HeadEncodes(t[i..]);
      NextIsWidth(t, i);
      var n := Width(t[i..]);
      assert t[i..][n..] == t[i + n..];
      OffsetSplits(t, i + n, k - 1);
      EncodeHead(cs, k);
      var j := Offset(t, i + n, k - 1);
      assert t[i..j] == t[i..][..n] + t[i + n..j];
      assert cs[1..][k - 1..] == cs[k..];
    }
  }

  lemma {:induction false} EncodeNothing(cs: seq<nat>)
    ensures AreScalars(cs[..0]) && EncodeAll(cs[..0]) == [] && cs[0..] == cs
  {
  }

  lemma {:induction false} ScalarsHead(b: seq<byte>)
    requires Valid(b) && Scalars(b) != []
    ensures b != [] && Width(b) > 0 && Valid(b[Width(b)..])
    ensures Scalars(b)[0] == Head(b) && Scalars(b)[1..] == Scalars(b[Width(b)..])
  {
    hide Width, Head;
  }

  /** The scalars a span covers. */
  function Picked(cs: seq<nat>, start: int, length: int): (s: Span)
    ensures s.from <= s.to <= |cs|
  {
    var first, last := Clamp(start, |cs|), Clamp(start + length, |cs|);
    Span(first, if last < first then first else last)
  }

  lemma {:induction false} SpanScalars(t: seq<byte>, start: int, length: int)
    requires Valid(t)
    ensures var cs, s, p := Scalars(t), SpanOf(t, start, length), Picked(Scalars(t), start, length);
      && AreScalars(cs) && Parts(t, cs, s, p)
  {
    hide Width, Head, Next, Encode, IsScalar, Offset, RuneCount, EncodeAll, Scalars, Valid;
    var cs, p := Scalars(t), Picked(Scalars(t), start, length);
    assert t[0..] == t;
    ValidEncodes(t);
    CountScalars(t, 0);
    var s := SpanOf(t, start, length);
    OffsetSplits(t, 0, p.from);
    OffsetSplits(t, 0, p.to);
    assert t[0..s.from] == t[..s.from] && t[0..s.to] == t[..s.to];
    ValidEncodes(t[s.to..]);
    MiddleEncodes(t, cs, s, p);
  }

  /** The text before, in and behind a span encodes the scalars before, in and behind. */
  ghost predicate Parts(t: seq<byte>, cs: seq<nat>, s: Span, p: Span)
    requires s.from <= s.to <= |t| && p.from <= p.to <= |cs| && AreScalars(cs)
  {
    && t[..s.from] == EncodeAll(cs[..p.from])
    && t[s.from..s.to] == EncodeAll(cs[p.from..p.to])
    && t[s.to..] == EncodeAll(cs[p.to..])
  }

  lemma {:induction false} EncodeAppend(a: seq<nat>, b: seq<nat>)
    requires AreScalars(a) && AreScalars(b)
    ensures AreScalars(a + b) && EncodeAll(a + b) == EncodeAll(a) + EncodeAll(b)
    decreases |a|
  {
    hide Encode, IsScalar;
    if a == [] {
      assert a + b == b;
    } else {
      EncodeAppend(a[1..], b);
      assert (a + b)[1..] == a[1..] + b;
    }
  }

  lemma {:induction false} MiddleEncodes(t: seq<byte>, cs: seq<nat>, s: Span, p: Span)
    requires s.from <= s.to <= |t| && p.from <= p.to <= |cs| && AreScalars(cs)
    requires t[..s.from] == EncodeAll(cs[..p.from]) && t[..s.to] == EncodeAll(cs[..p.to])
    requires t[s.to..] == EncodeAll(cs[p.to..])
    ensures Parts(t, cs, s, p)
  {
    hide EncodeAll, IsScalar;
    EncodeAppend(cs[..p.from], cs[p.from..p.to]);
    assert cs[..p.from] + cs[p.from..p.to] == cs[..p.to];
    assert t[..s.from] + t[s.from..s.to] == t[..s.to];
    assert t[s.from..s.to] == t[..s.to][s.from..];
  }

  predicate Wanted(i: int, start: int, length: int) {
    start <= i < start + length
  }

  /** Cut to the text, the scalars picked are those whose position is from `start` up to `start + length`. */
  lemma {:induction false} PickedAre(cs: seq<nat>, start: int, length: int)
    requires length > 0
    ensures var p := Picked(cs, start, length);
      forall i :: 0 <= i < |cs| ==> (p.from <= i < p.to <==> Wanted(i, start, length))
  {
  }

  /** On accepted text, substring and remove cut at scalar boundaries and are complementary: one gives the
      encoding of the scalars at the positions from `start` up to `start + length`, the other of all others. */
  lemma {:induction false} SliceScalars(t: seq<byte>, start: int, length: int) returns (from: nat, to: nat)
    requires Valid(t) && length > 0 && IsInt64(start + length)
    ensures var cs := Scalars(t);
      && from <= to <= |cs| && AreScalars(cs) && EncodeAll(cs) == t
      && (forall i :: 0 <= i < |cs| ==> (from <= i < to <==> Wanted(i, start, length)))
      && Substring(t, start, length) == EncodeAll(cs[from..to])
      && Remove(t, start, length) == EncodeAll(cs[..from] + cs[to..])
  {
    hide EncodeAll, Valid, Scalars, SpanOf, IsScalar, Picked;
    ValidEncodes(t);
    SpanScalars(t, start, length);
    var cs, p := Scalars(t), Picked(Scalars(t), start, length);
    EncodeAppend(cs[..p.from], cs[p.to..]);
    PickedAre(cs, start, length);
    from, to := p.from, p.to;
  }

  /** Inside the text, exactly `length` scalars from the scalar `start` on. */
  lemma {:induction false} SliceInside(t: seq<byte>, start: nat, length: nat)
    requires Valid(t) && length > 0 && IsInt64(start + length) && start + length <= |Scalars(t)|
    ensures var cs := Scalars(t);
      && AreScalars(cs) && Substring(t, start, length) == EncodeAll(cs[start..start + length])
      && Remove(t, start, length) == EncodeAll(cs[..start] + cs[start + length..])
  {
    hide EncodeAll, Valid, Scalars, Substring, Remove, IsScalar;
    var from, to := SliceScalars(t, start, length);
    assert Wanted(start, start, length) && Wanted(start + length - 1, start, length);
    assert !Wanted(start - 1, start, length) && !Wanted(start + length, start, length);
  }

  lemma {:induction false} PickedScalars(t: seq<byte>, start: int, length: int)
    requires Valid(t) && length > 0 && IsInt64(start + length)
    ensures var cs, p := Scalars(t), Picked(Scalars(t), start, length);
      && AreScalars(cs)
      && Substring(t, start, length) == EncodeAll(cs[p.from..p.to])
      && Remove(t, start, length) == EncodeAll(cs[..p.from] + cs[p.to..])
  {
    hide EncodeAll, Valid, Scalars, SpanOf, IsScalar;
    SpanScalars(t, start, length);
    var cs, p := Scalars(t), Picked(Scalars(t), start, length);
    EncodeAppend(cs[..p.from], cs[p.to..]);
  }

  /** Both results are again accepted text. */
  lemma {:induction false} SliceValid(t: seq<byte>, start: int, length: int)
    requires Valid(t) && IsInt64(start + length)
    ensures Valid(Substring(t, start, length)) && Valid(Remove(t, start, length))
  {
    hide EncodeAll, Scalars, Substring, Remove, IsScalar, Valid;
    if length > 0 {
      PickedScalars(t, start, length);
      var cs, p := Scalars(t), Picked(Scalars(t), start, length);
      EncodesValid(cs[p.from..p.to]);
      EncodesValid(cs[..p.from] + cs[p.to..]);
    } else {
      NoSlice(t, start, length);
    }
  }

  lemma {:induction false} NoSlice(t: seq<byte>, start: int, length: int)
    requires length <= 0 && IsInt64(start + length)
    ensures Substring(t, start, length) == [] && Remove(t, start, length) == t && Valid([])
  {
  }

  // ---------- the VM's loops ----------

  method CountRunes(t: array<byte>) returns (n: nat)
    ensures n == RuneCount(t[..], 0)
  {
    hide Next;
    var i := 0;
    n := 0;
    while i < t.Length
      invariant 0 <= i <= t.Length && RuneCount(t[..], 0) == n + RuneCount(t[..], i)
    {
      i := NextIndex(t, i);
      n := n + 1;
    }
  }

  method NextIndex(t: array<byte>, i: nat) returns (j: nat)
    requires i < t.Length
    ensures j == Next(t[..], i)
  {
    var ch := t[i];
    var one := if i + 1 < t.Length then t[i + 1] else 0;
    if ch < 0x80 {
      return i + 1;
    }
    if 0xC0 <= ch < 0xE0 && IsTail(one) {
      return i + 2;
    }
    if 0xE0 <= ch < 0xF0 && IsTail(one) && i + 2 < t.Length && IsTail(t[i + 2]) {
      return i + 3;
    }
    if 0xF0 <= ch < 0xF8 && IsTail(one) && i + 3 < t.Length && IsTail(t[i + 2]) && IsTail(t[i + 3]) {
      return i + 4;
    }
    j := i + 1;
  }

  method RuneOffset(t: array<byte>, k: nat) returns (j: nat)
    ensures j == Offset(t[..], 0, k)
  {
    hide Next;
    j := 0;
    var passed := 0;
    while j < t.Length && passed < k
      invariant 0 <= j <= t.Length && 0 <= passed <= k
      invariant Offset(t[..], 0, k) == Offset(t[..], j, k - passed)
      decreases k - passed
    {
      j := NextIndex(t, j);
      passed := passed + 1;
    }
  }

  method Slice(t: array<byte>, start: int, length: int) returns (s: Span)
    ensures s == SpanOf(t[..], start, length)
  {
    hide Offset, RuneCount;
    var n := CountRunes(t);
    var first, last := Clamp(start, n), Clamp(start + length, n);
    if last < first {
      last := first;
    }
    var from := RuneOffset(t, first);
    var to := RuneOffset(t, last);
    s := Span(from, to);
  }

  method SubstringByRunes(t: array<byte>, start: int, length: int) returns (r: seq<byte>)
    requires IsInt64(start + length)
    ensures r == Substring(t[..], start, length)
  {
    hide SpanOf;
    if length <= 0 {
      return [];
    }
    var s := Slice(t, start, length);
    r := t[s.from..s.to];
  }

  method RemoveByRunes(t: array<byte>, start: int, length: int) returns (r: seq<byte>)
    requires IsInt64(start + length)
    ensures r == Remove(t[..], start, length)
  {
    hide SpanOf;
    if length <= 0 {
      return t[..];
    }
    var s := Slice(t, start, length);
    r := t[..s.from] + t[s.to..];
  }
}
