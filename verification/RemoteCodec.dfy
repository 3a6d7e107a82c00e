/** The remote channel's messages and their byte format. */
module RemoteCodec {
  import opened Values
  import opened Aibc1

  const MAX_CAPS := 16
  const MAX_TEXT := 64
  const MAX_ERROR_TEXT := 128
  const HEADER_SIZE := 9
  const U16 := 0x1_0000

  datatype Message =
    | Hello(name: string, proto: nat, caps: seq<string>)
    | Welcome(proto: nat, caps: seq<string>)
    | Deny(code: nat, text: string)
    | Call(cap: string, op: string, value: int)
    | Result(value: int)
    | Error(code: nat, text: string)

  datatype Status = Ok | Short | Overflow | WrongType | Format

  function TypeByte(m: Message): byte {
    match m
    case Hello(_, _, _) => 0x01
    case Welcome(_, _) => 0x02
    case Deny(_, _) => 0x03
    case Call(_, _, _) => 0x10
    case Result(_) => 0x11
    case Error(_, _) => 0x12
  }

  /** Messages as the C structs hold them: text ends at its first zero byte, numbers have their width. */
  predicate IsMessage(m: Message) {
    match m
    case Hello(name, proto, caps) => IsText(name) && proto < U16 && AllText(caps) && |caps| < U32
    case Welcome(proto, caps) => proto < U16 && AllText(caps) && |caps| < U32
    case Deny(code, text) => code < U32 && IsText(text)
    case Call(cap, op, value) => IsText(cap) && IsText(op) && IsInt64(value)
    case Result(value) => IsInt64(value)
    case Error(code, text) => code < U32 && IsText(text)
  }

  predicate AllText(ts: seq<string>) {
    forall i :: 0 <= i < |ts| ==> IsText(ts[i])
  }

  // ---------- encoding ----------

  function HalfBytes(n: nat): (b: seq<byte>)
    ensures |b| == 2
  {
    [(n % 0x100) as byte, (n / 0x100 % 0x100) as byte]
  }

  /** A piece of a payload: bytes of a fixed width, or text with its length in front and a limit. */
  datatype Field = Raw(b: seq<byte>) | Text(s: string, max: nat)

  predicate IsField(f: Field) {
    f.Text? ==> IsText(f.s) && f.max < U16
  }

  predicate AreFields(fs: seq<Field>) {
    forall i :: 0 <= i < |fs| ==> IsField(fs[i])
  }

  function FieldBytes(f: Field): seq<byte>
    requires IsField(f)
  {
    match f
    case Raw(b) => b
    case Text(s, _) => HalfBytes(|s|) + TextBytes(s)
  }

  function CapFields(caps: seq<string>): (fs: seq<Field>)
    ensures |fs| == |caps| && (AllText(caps) ==> AreFields(fs))
  {
    seq(|caps|, i requires 0 <= i < |caps| => Text(caps[i], MAX_TEXT))
  }

  /** The payload, in the units the encoder checks room for. */
  function Fields(m: Message): (fs: seq<Field>)
    requires IsMessage(m)
    ensures AreFields(fs)
  {
    match m
    case Hello(name, proto, caps) =>
      [Text(name, MAX_TEXT), Raw(HalfBytes(proto) + WordBytes(|caps|))] + CapFields(caps)
    case Welcome(proto, caps) => [Raw(HalfBytes(proto) + WordBytes(|caps|))] + CapFields(caps)
    case Deny(code, text) => [Raw(WordBytes(code)), Text(text, MAX_ERROR_TEXT)]
    case Call(cap, op, value) => [Text(cap, MAX_TEXT), Text(op, MAX_TEXT), Raw(LongBytes(value))]
    case Result(value) => [Raw(LongBytes(value))]
    case Error(code, text) => [Raw(WordBytes(code)), Text(text, MAX_ERROR_TEXT)]
  }

  function CapCount(m: Message): nat {
    match m
    case Hello(_, _, caps) => |caps|
    case Welcome(_, caps) => |caps|
    case _ => 0
  }

  datatype Encoded = Written(b: seq<byte>) | Failed(status: Status)

  /** Write the fields behind `done`, which starts behind the header. */
  function Put(fs: seq<Field>, done: seq<byte>, capacity: nat): (r: Encoded)
    requires AreFields(fs)
    decreases |fs|
  {
    if fs == [] then Written(done)
    else if fs[0].Text? && |fs[0].s| > fs[0].max then Failed(Overflow)
    else if HEADER_SIZE + |done| + |FieldBytes(fs[0])| > capacity then Failed(Short)
    else Put(fs[1..], done + FieldBytes(fs[0]), capacity)
  }

  /** The aivm_remote_encode_ functions. */
  function Encode(id: nat, m: Message, capacity: nat): (r: Encoded)
    requires IsMessage(m)
  {
    if CapCount(m) > MAX_CAPS then Failed(Overflow)
    else
      match Put(Fields(m), [], capacity)
      case Failed(status) => Failed(status)
      case Written(payload) =>
        if capacity < HEADER_SIZE then Failed(Short)
        else Written([TypeByte(m)] + WordBytes(id) + WordBytes(|payload|) + payload)
  }

  function Payload(fs: seq<Field>): seq<byte>
    requires AreFields(fs)
  {
    if fs == [] then [] else FieldBytes(fs[0]) + Payload(fs[1..])
  }

  predicate TextsFit(fs: seq<Field>) {
    forall i :: 0 <= i < |fs| && fs[i].Text? ==> |fs[i].s| <= fs[i].max
  }

  lemma {:induction false} PutIs(fs: seq<Field>, done: seq<byte>, capacity: nat)
    requires AreFields(fs)
    ensures Put(fs, done, capacity).Written? ==>
      TextsFit(fs) && Put(fs, done, capacity) == Written(done + Payload(fs))
    ensures TextsFit(fs) && HEADER_SIZE + |done| + |Payload(fs)| <= capacity ==> Put(fs, done, capacity).Written?
    decreases |fs|
  {
    hide FieldBytes;
    if fs == [] {
      assert done + [] == done;
    } else {
      PutIs(fs[1..], done + FieldBytes(fs[0]), capacity);
      assert done + FieldBytes(fs[0]) + Payload(fs[1..]) == done + (FieldBytes(fs[0]) + Payload(fs[1..]));
      if TextsFit(fs) {
        assert fs[0].Text? ==> |fs[0].s| <= fs[0].max;
      }
    }
  }

  // ---------- decoding ----------

  function ReadHalf(b: seq<byte>, at: nat): (n: nat)
    requires at + 2 <= |b|
    ensures n < U16
  {
    b[at] as nat + 0x100 * (b[at + 1] as nat)
  }

  datatype TextResult = GotText(s: string, next: nat) | BadText(status: Status)

  /** read_string.  What is read is a C string. */
  function ReadText(b: seq<byte>, at: nat, max: nat): (r: TextResult)
    ensures r.GotText? ==> at < r.next <= |b| && IsText(r.s) && |r.s| <= max
  {
    if at + 2 > |b| then BadText(Short)
    else
      var n := ReadHalf(b, at);
      if n > max then BadText(Overflow)
      else if at + 2 + n > |b| then BadText(Short)
      else GotText(CString(b[at + 2..at + 2 + n]), at + 2 + n)
  }

  datatype CapsResult = GotCaps(caps: seq<string>, next: nat) | BadCaps(status: Status)

  function ReadCaps(b: seq<byte>, at: nat, n: nat, done: seq<string>): (r: CapsResult)
    decreases n
  {
    if n == 0 then GotCaps(done, at)
    else
      match ReadText(b, at, MAX_TEXT)
      case BadText(status) => BadCaps(status)
      case GotText(s, next) => ReadCaps(b, next, n - 1, done + [s])
  }

  datatype Decoded = Received(id: nat, m: Message) | Refused(status: Status)

  /** read_header and check_type */
  function CheckHeader(b: seq<byte>, expected: byte): Status {
    if |b| < HEADER_SIZE then Short
    else if ReadWord(b, 5) + HEADER_SIZE != |b| then Format
    else if b[0] != expected then WrongType
    else Ok
  }

  /** A whole frame of one type: type byte, id, payload size, payload, and nothing behind it. */
  ghost predicate IsFrame(b: seq<byte>, kind: byte) {
    exists id: nat, payload: seq<byte> :: FrameIs(b, kind, id, payload)
  }

  predicate FrameIs(b: seq<byte>, kind: byte, id: nat, payload: seq<byte>) {
    id < U32 && |payload| < U32 && b == [kind] + WordBytes(id) + WordBytes(|payload|) + payload
  }

  /** The header check passes exactly whole frames of the expected type. */
  lemma {:induction false} HeaderExact(b: seq<byte>, kind: byte)
    ensures CheckHeader(b, kind) == Ok <==> IsFrame(b, kind)
  {
    hide ReadWord, WordBytes;
    if CheckHeader(b, kind) == Ok {
      var payload := b[HEADER_SIZE..];
      WordBytesBack(b, 1);
      WordBytesBack(b, 5);
      assert b == [b[0]] + b[1..5] + b[5..9] + b[9..];
      assert FrameIs(b, kind, ReadWord(b, 1), payload);
    }
    if IsFrame(b, kind) {
      var id: nat, payload: seq<byte> :| FrameIs(b, kind, id, payload);
      assert b[5..9] == WordBytes(|payload|);
      WordRound(b, 5, |payload|);
    }
  }

  /** A protocol version, a count and that many capabilities, up to the end of the frame. */
  function DecodeCaps(b: seq<byte>, at: nat): (r: ListResult)
  {
    if at + 6 > |b| then BadList(Short)
    else
      var count := ReadWord(b, at + 2);
      if count > MAX_CAPS then BadList(Overflow)
      else
        match ReadCaps(b, at + 6, count, [])
        case BadCaps(status) => BadList(status)
        case GotCaps(caps, next) => if next != |b| then BadList(Format) else GotList(ReadHalf(b, at), caps)
  }

  datatype ListResult = GotList(proto: nat, caps: seq<string>) | BadList(status: Status)

  function DecodeHello(b: seq<byte>): Decoded {
    if CheckHeader(b, 0x01) != Ok then Refused(CheckHeader(b, 0x01))
    else
      match ReadText(b, HEADER_SIZE, MAX_TEXT)
      case BadText(status) => Refused(status)
      case GotText(name, next) =>
        match DecodeCaps(b, next)
        case BadList(status) => Refused(status)
        case GotList(proto, caps) => Received(ReadWord(b, 1), Hello(name, proto, caps))
  }

  function DecodeWelcome(b: seq<byte>): Decoded {
    if CheckHeader(b, 0x02) != Ok then Refused(CheckHeader(b, 0x02))
    else
      match DecodeCaps(b, HEADER_SIZE)
      case BadList(status) => Refused(status)
      case GotList(proto, caps) => Received(ReadWord(b, 1), Welcome(proto, caps))
  }

  /** A code and a text: Deny and Error. */
  function DecodeNotice(b: seq<byte>, expected: byte): Decoded {
    if CheckHeader(b, expected) != Ok then Refused(CheckHeader(b, expected))
    else if HEADER_SIZE + 4 > |b| then Refused(Short)
    else
      match ReadText(b, HEADER_SIZE + 4, MAX_ERROR_TEXT)
      case BadText(status) => Refused(status)
      case GotText(text, next) =>
        if next != |b| then Refused(Format)
        else
          var code := ReadWord(b, HEADER_SIZE);
          Received(ReadWord(b, 1), if expected == 0x03 then Deny(code, text) else Error(code, text))
  }

  function DecodeCall(b: seq<byte>): Decoded {
    if CheckHeader(b, 0x10) != Ok then Refused(CheckHeader(b, 0x10))
    else
      match ReadText(b, HEADER_SIZE, MAX_TEXT)
      case BadText(status) => Refused(status)
      case GotText(cap, next) =>
        match ReadText(b, next, MAX_TEXT)
        case BadText(status) => Refused(status)
        case GotText(op, last) =>
          if last + 8 != |b| then Refused(Format) else Received(ReadWord(b, 1), Call(cap, op, ReadLong(b, last)))
  }

  function DecodeResult(b: seq<byte>): Decoded {
    if CheckHeader(b, 0x11) != Ok then Refused(CheckHeader(b, 0x11))
    else if |b| != HEADER_SIZE + 8 then Refused(Format)
    else Received(ReadWord(b, 1), Result(ReadLong(b, HEADER_SIZE)))
  }

  /** The decoder for messages of `m`'s kind. */
  function Decode(kind: Message, b: seq<byte>): Decoded {
    match kind
    case Hello(_, _, _) => DecodeHello(b)
    case Welcome(_, _) => DecodeWelcome(b)
    case Deny(_, _) => DecodeNotice(b, 0x03)
    case Call(_, _, _) => DecodeCall(b)
    case Result(_) => DecodeResult(b)
    case Error(_, _) => DecodeNotice(b, 0x12)
  }

  // ---------- decoding inverts encoding ----------

  lemma {:induction false} HalfRound(b: seq<byte>, at: nat, n: nat)
    requires n < U16 && Lies(b, at, HalfBytes(n))
    ensures ReadHalf(b, at) == n
  {
    LiesAt(b, at, HalfBytes(n), 0);
    LiesAt(b, at, HalfBytes(n), 1);
  }

  lemma {:induction false} ReadTextRound(b: seq<byte>, at: nat, s: string, max: nat)
    requires IsText(s) && |s| <= max < U16 && Lies(b, at, FieldBytes(Text(s, max)))
    ensures ReadText(b, at, max) == GotText(s, at + 2 + |s|)
  {
    hide ReadHalf, HalfBytes, CString;
    LiesSplit(b, at, HalfBytes(|s|), TextBytes(s));
    HalfRound(b, at, |s|);
    TextRound(s);
  }

  lemma {:induction false} PayloadNext(b: seq<byte>, at: nat, fs: seq<Field>)
    requires AreFields(fs) && fs != [] && Lies(b, at, Payload(fs))
    ensures Lies(b, at, FieldBytes(fs[0])) && Lies(b, at + |FieldBytes(fs[0])|, Payload(fs[1..]))
    ensures at + |Payload(fs)| == at + |FieldBytes(fs[0])| + |Payload(fs[1..])|
  {
    hide FieldBytes, Lies;
    LiesSplit(b, at, FieldBytes(fs[0]), Payload(fs[1..]));
  }

  lemma {:induction false} CapsRound(b: seq<byte>, at: nat, caps: seq<string>, done: seq<string>)
    requires AllText(caps) && (forall i :: 0 <= i < |caps| ==> |caps[i]| <= MAX_TEXT)
    requires Lies(b, at, Payload(CapFields(caps)))
    ensures ReadCaps(b, at, |caps|, done) == GotCaps(done + caps, at + |Payload(CapFields(caps))|)
    decreases |caps|
  {
    hide FieldBytes, ReadText, IsText, Lies;
    if caps == [] {
      assert done + caps == done;
    } else {
      PayloadNext(b, at, CapFields(caps));
      assert CapFields(caps)[1..] == CapFields(caps[1..]);
      ReadTextRound(b, at, caps[0], MAX_TEXT);
      CapsRound(b, at + |FieldBytes(Text(caps[0], MAX_TEXT))|, caps[1..], done + [caps[0]]);
      TextFieldSize(caps[0]);
      assert done + [caps[0]] + caps[1..] == done + caps;
    }
  }

  lemma {:induction false} TextFieldSize(s: string)
    requires IsText(s)
    ensures forall max: nat | max < U16 :: |FieldBytes(Text(s, max))| == 2 + |s|
  {
  }

  lemma {:induction false} DecodeCapsRound(b: seq<byte>, at: nat, proto: nat, caps: seq<string>)
    requires proto < U16 && AllText(caps) && |caps| <= MAX_CAPS && TextsFit(CapFields(caps))
    requires Lies(b, at, Payload([Raw(HalfBytes(proto) + WordBytes(|caps|))] + CapFields(caps)))
    requires at + |Payload([Raw(HalfBytes(proto) + WordBytes(|caps|))] + CapFields(caps))| == |b|
    ensures DecodeCaps(b, at) == GotList(proto, caps)
  {
    hide ReadHalf, ReadWord, HalfBytes, WordBytes, ReadCaps, Lies;
    var head := HalfBytes(proto) + WordBytes(|caps|);
    var fs := [Raw(head)] + CapFields(caps);
    PayloadNext(b, at, fs);
    assert fs[1..] == CapFields(caps);
    LiesSplit(b, at, HalfBytes(proto), WordBytes(|caps|));
    HalfRound(b, at, proto);
    WordRound(b, at + 2, |caps|);
    assert forall i :: 0 <= i < |caps| ==> CapFields(caps)[i] == Text(caps[i], MAX_TEXT);
    CapsRound(b, at + 6, caps, []);
    assert [] + caps == caps;
  }

  /** What a written frame looks like. */
  lemma {:induction false} FrameParts(id: nat, m: Message, capacity: nat)
    requires IsMessage(m) && id < U32 && Encode(id, m, capacity).Written?
    ensures var b, payload := Encode(id, m, capacity).b, Payload(Fields(m));
      && CapCount(m) <= MAX_CAPS && TextsFit(Fields(m))
      && |b| == HEADER_SIZE + |payload| <= capacity && Lies(b, HEADER_SIZE, payload)
      && b[0] == TypeByte(m) && Lies(b, 1, WordBytes(id)) && Lies(b, 5, WordBytes(|payload|))
  {
    hide WordBytes, Fields, Payload, Put;
    PutIs(Fields(m), [], capacity);
    PutFits(Fields(m), [], capacity);
    var payload := Payload(Fields(m));
    assert [] + payload == payload;
    var b := [TypeByte(m)] + WordBytes(id) + WordBytes(|payload|) + payload;
    assert b == Encode(id, m, capacity).b;
    assert Lies(b, 0, b);
    LiesSplit(b, 0, [TypeByte(m)] + WordBytes(id) + WordBytes(|payload|), payload);
    LiesSplit3(b, 0, [TypeByte(m)], WordBytes(id), WordBytes(|payload|));
  }

  lemma {:induction false} PutFits(fs: seq<Field>, done: seq<byte>, capacity: nat)
    requires AreFields(fs) && HEADER_SIZE + |done| <= capacity
    ensures Put(fs, done, capacity).Written? ==> HEADER_SIZE + |Put(fs, done, capacity).b| <= capacity
    decreases |fs|
  {
    hide FieldBytes;
    if fs != [] && HEADER_SIZE + |done| + |FieldBytes(fs[0])| <= capacity {
      PutFits(fs[1..], done + FieldBytes(fs[0]), capacity);
    }
  }

  lemma {:induction false} HeaderOk(id: nat, m: Message, capacity: nat)
    requires IsMessage(m) && id < U32 && Encode(id, m, capacity).Written?
    requires |Payload(Fields(m))| < U32
    ensures var b := Encode(id, m, capacity).b;
      |b| >= HEADER_SIZE && CheckHeader(b, TypeByte(m)) == Ok && ReadWord(b, 1) == id
  {
    hide WordBytes, Fields, Payload, Encode, ReadWord, Lies;
    FrameParts(id, m, capacity);
    var b := Encode(id, m, capacity).b;
    WordRound(b, 1, id);
    WordRound(b, 5, |Payload(Fields(m))|);
  }

  lemma {:induction false} CapsSize(caps: seq<string>)
    requires AllText(caps) && TextsFit(CapFields(caps))
    ensures |Payload(CapFields(caps))| <= (2 + MAX_TEXT) * |caps|
  {
    hide IsText;
    if caps != [] {
      assert CapFields(caps)[0] == Text(caps[0], MAX_TEXT);
      forall i | 0 <= i < |caps[1..]|
        ensures |CapFields(caps[1..])[i].s| <= MAX_TEXT
      {
        assert CapFields(caps)[i + 1] == Text(caps[i + 1], MAX_TEXT);
      }
      assert CapFields(caps)[1..] == CapFields(caps[1..]);
      CapsSize(caps[1..]);
    }
  }

  /** Two fields in front. */
  lemma {:induction false} PayloadTwo(f: Field, g: Field)
    requires IsField(f) && IsField(g)
    ensures Payload([f, g]) == FieldBytes(f) + FieldBytes(g)
  {
    hide FieldBytes;
    assert [f, g][1..] == [g];
    PayloadOne(g);
  }

  lemma {:induction false} PayloadOne(f: Field)
    requires IsField(f)
    ensures Payload([f]) == FieldBytes(f)
  {
    hide FieldBytes;
    assert [f][1..] == [];
    assert FieldBytes(f) + [] == FieldBytes(f);
  }

  lemma {:induction false} PayloadCons(f: Field, fs: seq<Field>)
    requires IsField(f) && AreFields(fs)
    ensures AreFields([f] + fs) && Payload([f] + fs) == FieldBytes(f) + Payload(fs)
  {
    hide FieldBytes;
    assert ([f] + fs)[1..] == fs;
  }

  lemma {:induction false} WelcomeRound(id: nat, m: Message, capacity: nat)
    requires m.Welcome? && IsMessage(m) && id < U32 && Encode(id, m, capacity).Written?
    ensures DecodeWelcome(Encode(id, m, capacity).b) == Received(id, m)
  {
    hide Encode, Payload, DecodeCaps, CheckHeader, ReadWord, Lies, CapFields;
    FrameParts(id, m, capacity);
    var head := Raw(HalfBytes(m.proto) + WordBytes(|m.caps|));
    CapsFit(m.caps, [head]);
    CapsSize(m.caps);
    PayloadCons(head, CapFields(m.caps));
    HeaderOk(id, m, capacity);
    DecodeCapsRound(Encode(id, m, capacity).b, HEADER_SIZE, m.proto, m.caps);
  }

  lemma {:induction false} CapsFit(caps: seq<string>, front: seq<Field>)
    requires TextsFit(front + CapFields(caps))
    ensures TextsFit(CapFields(caps)) && TextsFit(front)
  {
    var all := front + CapFields(caps);
    forall i | 0 <= i < |caps|
      ensures |CapFields(caps)[i].s| <= MAX_TEXT
    {
      assert all[|front| + i] == CapFields(caps)[i];
    }
    forall i | 0 <= i < |front| && front[i].Text?
      ensures |front[i].s| <= front[i].max
    {
      assert all[i] == front[i];
    }
  }

  lemma {:induction false} HelloRound(id: nat, m: Message, capacity: nat)
    requires m.Hello? && IsMessage(m) && id < U32 && Encode(id, m, capacity).Written?
    ensures DecodeHello(Encode(id, m, capacity).b) == Received(id, m)
  {
    hide Encode, Payload, DecodeCaps, CheckHeader, ReadWord, Lies, CapFields, ReadText, FieldBytes;
    FrameParts(id, m, capacity);
    var name, head := Text(m.name, MAX_TEXT), Raw(HalfBytes(m.proto) + WordBytes(|m.caps|));
    var b, rest := Encode(id, m, capacity).b, [head] + CapFields(m.caps);
    assert Fields(m) == [name] + rest by { assert [name, head] == [name] + [head]; }
    assert [name, head] + CapFields(m.caps) == Fields(m);
    CapsFit(m.caps, [name, head]);
    assert [name, head][0] == name;
    CapsSize(m.caps);
    PayloadCons(head, CapFields(m.caps));
    PayloadCons(name, rest);
    HelloSize(m);
    HeaderOk(id, m, capacity);
    LiesSplit(b, HEADER_SIZE, FieldBytes(name), Payload(rest));
    ReadTextRound(b, HEADER_SIZE, m.name, MAX_TEXT);
    TextFieldSize(m.name);
    DecodeCapsRound(b, HEADER_SIZE + 2 + |m.name|, m.proto, m.caps);
  }

  lemma {:induction false} HelloSize(m: Message)
    requires m.Hello? && IsMessage(m)
    ensures |FieldBytes(Text(m.name, MAX_TEXT))| == 2 + |m.name|
    ensures |FieldBytes(Raw(HalfBytes(m.proto) + WordBytes(|m.caps|)))| == 6
  {
  }

  lemma {:induction false} NoticeRound(id: nat, m: Message, capacity: nat)
    requires (m.Deny? || m.Error?) && IsMessage(m) && id < U32 && Encode(id, m, capacity).Written?
    ensures DecodeNotice(Encode(id, m, capacity).b, TypeByte(m)) == Received(id, m)
  {
    hide Encode, Payload, CheckHeader, ReadWord, Lies, ReadText, WordBytes;
    FrameParts(id, m, capacity);
    var b, code, text := Encode(id, m, capacity).b, Raw(WordBytes(m.code)), Text(m.text, MAX_ERROR_TEXT);
    PayloadTwo(code, text);
    assert Fields(m)[1] == text;
    HeaderOk(id, m, capacity);
    LiesSplit(b, HEADER_SIZE, FieldBytes(code), FieldBytes(text));
    WordRound(b, HEADER_SIZE, m.code);
    ReadTextRound(b, HEADER_SIZE + 4, m.text, MAX_ERROR_TEXT);
  }

  lemma {:induction false} ResultRound(id: nat, m: Message, capacity: nat)
    requires m.Result? && IsMessage(m) && id < U32 && Encode(id, m, capacity).Written?
    ensures DecodeResult(Encode(id, m, capacity).b) == Received(id, m)
  {
    hide Encode, Payload, CheckHeader, ReadWord, ReadLong, Lies, LongBytes;
    FrameParts(id, m, capacity);
    PayloadOne(Raw(LongBytes(m.value)));
    HeaderOk(id, m, capacity);
    LongRound(Encode(id, m, capacity).b, HEADER_SIZE, m.value);
  }

  lemma {:induction false} CallRound(id: nat, m: Message, capacity: nat)
    requires m.Call? && IsMessage(m) && id < U32 && Encode(id, m, capacity).Written?
    ensures DecodeCall(Encode(id, m, capacity).b) == Received(id, m)
  {
    hide Encode, Payload, CheckHeader, ReadWord, ReadLong, Lies, LongBytes, ReadText;
    FrameParts(id, m, capacity);
    var b, cap, op, value := Encode(id, m, capacity).b, Text(m.cap, MAX_TEXT), Text(m.op, MAX_TEXT), Raw(LongBytes(m.value));
    assert Fields(m) == [cap] + [op, value];
    assert Fields(m)[0] == cap && Fields(m)[1] == op;
    PayloadTwo(op, value);
    PayloadCons(cap, [op, value]);
    HeaderOk(id, m, capacity);
    LiesSplit(b, HEADER_SIZE, FieldBytes(cap), FieldBytes(op) + FieldBytes(value));
    LiesSplit(b, HEADER_SIZE + |FieldBytes(cap)|, FieldBytes(op), FieldBytes(value));
    ReadTextRound(b, HEADER_SIZE, m.cap, MAX_TEXT);
    ReadTextRound(b, HEADER_SIZE + 2 + |m.cap|, m.op, MAX_TEXT);
    LongRound(b, HEADER_SIZE + 4 + |m.cap| + |m.op|, m.value);
  }

  /** Decoding what was encoded gives the message and its id back, for every kind of message. */
  lemma {:induction false} CodecRound(id: nat, m: Message, capacity: nat)
    requires IsMessage(m) && id < U32 && Encode(id, m, capacity).Written?
    ensures Decode(m, Encode(id, m, capacity).b) == Received(id, m)
  {
    hide Encode, IsMessage, DecodeHello, DecodeWelcome, DecodeNotice, DecodeCall, DecodeResult;
    match m
    case Hello(_, _, _) => HelloRound(id, m, capacity);
    case Welcome(_, _) => WelcomeRound(id, m, capacity);
    case Deny(_, _) => NoticeRound(id, m, capacity);
    case Call(_, _, _) => CallRound(id, m, capacity);
    case Result(_) => ResultRound(id, m, capacity);
    case Error(_, _) => NoticeRound(id, m, capacity);
  }

  /** Encoding succeeds exactly if the counts, the texts and the buffer allow it. */
  lemma {:induction false} EncodeExact(id: nat, m: Message, capacity: nat)
    requires IsMessage(m)
    ensures Encode(id, m, capacity).Written? <==>
      CapCount(m) <= MAX_CAPS && TextsFit(Fields(m)) && HEADER_SIZE + |Payload(Fields(m))| <= capacity
  {
    hide Put, Fields, Payload;
    PutIs(Fields(m), [], capacity);
    assert [] + Payload(Fields(m)) == Payload(Fields(m));
    if capacity >= HEADER_SIZE {
      PutFits(Fields(m), [], capacity);
    }
  }

  /** What a refusal says: too many capabilities or too long a text, or a buffer too small for the frame. */
  lemma {:induction false} EncodeRefusal(id: nat, m: Message, capacity: nat)
    requires IsMessage(m)
    ensures Encode(id, m, capacity) == Failed(Overflow) ==> CapCount(m) > MAX_CAPS || !TextsFit(Fields(m))
    ensures Encode(id, m, capacity) == Failed(Short) ==>
      CapCount(m) <= MAX_CAPS && HEADER_SIZE + |Payload(Fields(m))| > capacity
    ensures Encode(id, m, capacity).Failed? ==> Encode(id, m, capacity).status in {Overflow, Short}
  {
    hide Fields, Payload, Put;
    PutRefusal(Fields(m), [], capacity);
    PutIs(Fields(m), [], capacity);
    assert [] + Payload(Fields(m)) == Payload(Fields(m));
  }

  lemma {:induction false} PutRefusal(fs: seq<Field>, done: seq<byte>, capacity: nat)
    requires AreFields(fs)
    ensures Put(fs, done, capacity) == Failed(Overflow) ==> !TextsFit(fs)
    ensures Put(fs, done, capacity) == Failed(Short) ==> HEADER_SIZE + |done| + |Payload(fs)| > capacity
    ensures Put(fs, done, capacity).Failed? ==> Put(fs, done, capacity).status in {Overflow, Short}
    decreases |fs|
  {
    hide FieldBytes;
    if fs != [] {
      PutRefusal(fs[1..], done + FieldBytes(fs[0]), capacity);
      if TextsFit(fs) {
        assert fs[0].Text? ==> |fs[0].s| <= fs[0].max;
        assert TextsFit(fs[1..]);
      }
    }
  }

  /** What the header check says of anything but a whole frame of the type. */
  lemma {:induction false} HeaderRefusal(b: seq<byte>, kind: byte)
    ensures CheckHeader(b, kind) == Short <==> |b| < 9
    ensures CheckHeader(b, kind) == Format <==> |b| >= 9 && ReadWord(b, 5) + 9 != |b|
    ensures CheckHeader(b, kind) == WrongType <==> b != [] && b[0] != kind && IsFrame(b, b[0])
    ensures CheckHeader(b, kind) != Overflow
  {
    hide ReadWord, IsFrame;
    if b != [] {
      HeaderExact(b, b[0]);
    }
  }

  // ---------- what is decoded is what is there ----------

  /** From `at` to `next` lies a length and so many bytes, `s` being what is in front of the first zero byte. */
  ghost predicate TextLies(b: seq<byte>, at: nat, next: nat, s: string, max: nat) {
    && at + 2 <= next <= |b| && next - at - 2 <= max
    && b[at..at + 2] == HalfBytes(next - at - 2) && UpToZero(b[at + 2..next], s)
  }

  /** From `at` to the end of the frame lie these texts. */
  ghost predicate TextsLie(b: seq<byte>, at: nat, texts: seq<string>)
    decreases |texts|
  {
    if texts == [] then at == |b|
    else exists next :: TextLies(b, at, next, texts[0], MAX_TEXT) && TextsLie(b, next, texts[1..])
  }

  /** A protocol version and a list of capabilities, from `at` to the end of the frame. */
  ghost predicate CapsLie(b: seq<byte>, at: nat, proto: nat, caps: seq<string>) {
    && at + 6 <= |b| && |caps| <= MAX_CAPS
    && b[at..at + 2] == HalfBytes(proto) && b[at + 2..at + 6] == WordBytes(|caps|) && TextsLie(b, at + 6, caps)
  }

  /** The frame `b` is `m` under `id`: its fields in order, and nothing behind them. */
  ghost predicate FrameLies(b: seq<byte>, id: nat, m: Message) {
    && IsFrame(b, TypeByte(m)) && |b| >= HEADER_SIZE && b[1..5] == WordBytes(id)
    && match m
       case Hello(name, proto, caps) => exists next :: TextLies(b, 9, next, name, MAX_TEXT) && CapsLie(b, next, proto, caps)
       case Welcome(proto, caps) => CapsLie(b, 9, proto, caps)
       case Deny(code, text) => NoticeLies(b, code, text)
       case Error(code, text) => NoticeLies(b, code, text)
       case Result(value) => IsInt64(value) && b[9..] == LongBytes(value)
       case Call(cap, op, value) =>
         IsInt64(value) &&
         exists mid: nat, last: nat :: TextLies(b, 9, mid, cap, MAX_TEXT) && TextLies(b, mid, last, op, MAX_TEXT)
           && b[last..] == LongBytes(value)
  }

  ghost predicate NoticeLies(b: seq<byte>, code: nat, text: string) {
    |b| >= 13 && b[9..13] == WordBytes(code) && TextLies(b, 13, |b|, text, MAX_ERROR_TEXT)
  }

  lemma {:induction false} HalfBack(b: seq<byte>, at: nat)
    requires at + 2 <= |b|
    ensures HalfBytes(ReadHalf(b, at)) == b[at..at + 2]
  {
    var lo, hi := b[at] as nat, b[at + 1] as nat;
    assert (lo + 0x100 * hi) % 0x100 == lo && (lo + 0x100 * hi) / 0x100 == hi;
  }

  lemma {:induction false} ReadTextBack(b: seq<byte>, at: nat, max: nat)
    ensures var r := ReadText(b, at, max); r.GotText? ==> TextLies(b, at, r.next, r.s, max)
  {
    hide ReadHalf, HalfBytes, CString, UpToZero;
    if at + 2 <= |b| {
      HalfBack(b, at);
      var n := ReadHalf(b, at);
      if at + 2 + n <= |b| {
        CutAtZero(b[at + 2..at + 2 + n]);
      }
    }
  }

  lemma {:induction false} ReadCapsBack(b: seq<byte>, at: nat, n: nat, done: seq<string>)
    requires at <= |b|
    ensures var r := ReadCaps(b, at, n, done);
      r.GotCaps? && r.next == |b| ==>
        |r.caps| == |done| + n && r.caps[..|done|] == done && TextsLie(b, at, r.caps[|done|..])
    decreases n
  {
    hide ReadText, TextLies;
    var r := ReadCaps(b, at, n, done);
    if n == 0 {
      assert done[|done|..] == [];
    } else if r.GotCaps? && r.next == |b| {
      ReadTextBack(b, at, MAX_TEXT);
      var s, next := ReadText(b, at, MAX_TEXT).s, ReadText(b, at, MAX_TEXT).next;
      ReadCapsBack(b, next, n - 1, done + [s]);
      var rest := r.caps[|done|..];
      assert r.caps[|done|] == r.caps[..|done| + 1][|done|] == s;
      assert r.caps[..|done|] == r.caps[..|done| + 1][..|done|];
      assert rest[0] == s && rest[1..] == r.caps[|done| + 1..];
      assert TextLies(b, at, next, rest[0], MAX_TEXT) && TextsLie(b, next, rest[1..]);
    }
  }

  lemma {:induction false} DecodeCapsBack(b: seq<byte>, at: nat)
    ensures var r := DecodeCaps(b, at); r.GotList? ==> CapsLie(b, at, r.proto, r.caps)
  {
    hide ReadHalf, HalfBytes, ReadWord, WordBytes, ReadCaps, TextsLie;
    if at + 6 <= |b| {
      HalfBack(b, at);
      WordBytesBack(b, at + 2);
      var count := ReadWord(b, at + 2);
      ReadCapsBack(b, at + 6, count, []);
      if ReadCaps(b, at + 6, count, []).GotCaps? {
        var caps := ReadCaps(b, at + 6, count, []).caps;
        assert caps[0..] == caps;
      }
    }
  }

  lemma {:induction false} HeaderBack(b: seq<byte>, kind: byte)
    requires CheckHeader(b, kind) == Ok
    ensures IsFrame(b, kind) && |b| >= HEADER_SIZE && b[1..5] == WordBytes(ReadWord(b, 1))
  {
    hide IsFrame, ReadWord, WordBytes;
    HeaderExact(b, kind);
    WordBytesBack(b, 1);
  }

  lemma {:induction false} HelloBack(b: seq<byte>)
    ensures DecodeHello(b).Received? ==> DecodeHello(b).m.Hello? && FrameLies(b, DecodeHello(b).id, DecodeHello(b).m)
  {
    hide IsFrame, ReadWord, WordBytes, ReadText, DecodeCaps, TextLies, CapsLie, CheckHeader;
    if CheckHeader(b, 0x01) == Ok {
      HeaderBack(b, 0x01);
      ReadTextBack(b, HEADER_SIZE, MAX_TEXT);
      if ReadText(b, HEADER_SIZE, MAX_TEXT).GotText? {
        DecodeCapsBack(b, ReadText(b, HEADER_SIZE, MAX_TEXT).next);
      }
    }
  }

  lemma {:induction false} WelcomeBack(b: seq<byte>)
    ensures DecodeWelcome(b).Received? ==>
      DecodeWelcome(b).m.Welcome? && FrameLies(b, DecodeWelcome(b).id, DecodeWelcome(b).m)
  {
    hide IsFrame, ReadWord, WordBytes, DecodeCaps, CapsLie, CheckHeader;
    if CheckHeader(b, 0x02) == Ok {
      HeaderBack(b, 0x02);
      DecodeCapsBack(b, HEADER_SIZE);
    }
  }

  lemma {:induction false} NoticeBack(b: seq<byte>, kind: byte)
    requires kind == 0x03 || kind == 0x12
    ensures DecodeNotice(b, kind).Received? ==>
      && (if kind == 0x03 then DecodeNotice(b, kind).m.Deny? else DecodeNotice(b, kind).m.Error?)
      && FrameLies(b, DecodeNotice(b, kind).id, DecodeNotice(b, kind).m)
  {
    hide IsFrame, ReadWord, WordBytes, ReadText, TextLies, CheckHeader;
    if CheckHeader(b, kind) == Ok && |b| >= 13 {
      HeaderBack(b, kind);
      WordBytesBack(b, 9);
      ReadTextBack(b, 13, MAX_ERROR_TEXT);
    }
  }

  lemma {:induction false} CallBack(b: seq<byte>)
    ensures DecodeCall(b).Received? ==> DecodeCall(b).m.Call? && FrameLies(b, DecodeCall(b).id, DecodeCall(b).m)
  {
    hide IsFrame, ReadWord, WordBytes, ReadText, TextLies, CheckHeader, ReadLong, LongBytes;
    if DecodeCall(b).Received? {
      HeaderBack(b, 0x10);
      ReadTextBack(b, HEADER_SIZE, MAX_TEXT);
      var mid := ReadText(b, HEADER_SIZE, MAX_TEXT).next;
      ReadTextBack(b, mid, MAX_TEXT);
      var last := ReadText(b, mid, MAX_TEXT).next;
      LongBack(b, last);
      assert b[last..last + 8] == b[last..];
    }
  }

  lemma {:induction false} ResultBack(b: seq<byte>)
    ensures DecodeResult(b).Received? ==> DecodeResult(b).m.Result? && FrameLies(b, DecodeResult(b).id, DecodeResult(b).m)
  {
    hide IsFrame, ReadWord, WordBytes, CheckHeader, ReadLong, LongBytes;
    if DecodeResult(b).Received? {
      HeaderBack(b, 0x11);
      LongBack(b, HEADER_SIZE);
      assert b[9..17] == b[9..];
    }
  }

  /** Whatever a decoder accepts is a whole frame holding that message and nothing else. */
  lemma {:induction false} DecodeBack(kind: Message, b: seq<byte>)
    ensures var r := Decode(kind, b); r.Received? ==> TypeByte(r.m) == TypeByte(kind) && FrameLies(b, r.id, r.m)
  {
    hide DecodeHello, DecodeWelcome, DecodeNotice, DecodeCall, DecodeResult, FrameLies;
    match kind
    case Hello(_, _, _) => HelloBack(b);
    case Welcome(_, _) => WelcomeBack(b);
    case Deny(_, _) => NoticeBack(b, 0x03);
    case Error(_, _) => NoticeBack(b, 0x12);
    case Call(_, _, _) => CallBack(b);
    case Result(_) => ResultBack(b);
  }

  // ---------- two frames, byte by byte ----------

  const SAMPLE_HELLO := Hello("a", 1, ["x"])
  const SAMPLE_CALL := Call("x", "y", -2)

  /** Type, id, payload size; name; protocol version and number of capabilities; the capability. */
  function HelloFrame(): seq<byte> {
    [1] + [7, 0, 0, 0] + [12, 0, 0, 0] + ([1, 0, 0x61] + ([1, 0, 1, 0, 0, 0] + [1, 0, 0x78]))
  }

  /** Type, id, payload size; capability; operation; value. */
  function CallFrame(): seq<byte> {
    [0x10] + [7, 0, 0, 0] + [14, 0, 0, 0] +
    ([1, 0, 0x78] + ([1, 0, 0x79] + [0xFE, 0xFF, 0xFF, 0xFF, 0xFF, 0xFF, 0xFF, 0xFF]))
  }

  lemma {:induction false} SampleFields()
    ensures IsText("a") && FieldBytes(Text("a", MAX_TEXT)) == [1, 0, 0x61]
    ensures IsText("x") && FieldBytes(Text("x", MAX_TEXT)) == [1, 0, 0x78]
    ensures IsText("y") && FieldBytes(Text("y", MAX_TEXT)) == [1, 0, 0x79]
    ensures HalfBytes(1) + WordBytes(1) == [1, 0, 1, 0, 0, 0]
    ensures LongBytes(-2) == [0xFE, 0xFF, 0xFF, 0xFF, 0xFF, 0xFF, 0xFF, 0xFF]
  {
    assert TextBytes("a") == [0x61] && TextBytes("x") == [0x78] && TextBytes("y") == [0x79];
    assert HalfBytes(1) == [1, 0] && WordBytes(1) == [1, 0, 0, 0];
    assert Unsigned(-2) == 0xFFFF_FFFF_FFFF_FFFE;
    assert WordBytes(0xFFFF_FFFE) == [0xFE, 0xFF, 0xFF, 0xFF] && WordBytes(0xFFFF_FFFF) == [0xFF, 0xFF, 0xFF, 0xFF];
  }

  lemma {:induction false} ThreeFields(f: Field, g: Field, h: Field)
    requires IsField(f) && IsField(g) && IsField(h)
    requires FieldFits(f) && FieldFits(g) && FieldFits(h)
    requires |FieldBytes(f)| + |FieldBytes(g)| + |FieldBytes(h)| <= 64
    ensures AreFields([f, g, h])
    ensures Put([f, g, h], [], 128) == Written(FieldBytes(f) + (FieldBytes(g) + FieldBytes(h)))
  {
    hide FieldBytes;
    assert [f, g, h][1..] == [g, h] && [g, h][1..] == [h] && [h][1..] == [];
    var a, b, c := FieldBytes(f), FieldBytes(g), FieldBytes(h);
    assert [] + a == a && (a + b) + c == a + (b + c);
    assert Put([], a + b + c, 128) == Written(a + b + c);
    assert Put([h], a + b, 128) == Put([], a + b + c, 128);
    assert Put([g, h], a, 128) == Put([h], a + b, 128);
  }

  predicate FieldFits(f: Field) {
    f.Text? ==> |f.s| <= f.max
  }

  /** The encoder's frames for a HELLO and a CALL, and the decoder's reading of them. */
  lemma {:induction false} SampleFrames()
    ensures IsMessage(SAMPLE_HELLO) && Encode(7, SAMPLE_HELLO, 128) == Written(HelloFrame())
    ensures IsMessage(SAMPLE_CALL) && Encode(7, SAMPLE_CALL, 128) == Written(CallFrame())
    ensures DecodeHello(HelloFrame()) == Received(7, SAMPLE_HELLO)
    ensures DecodeCall(CallFrame()) == Received(7, SAMPLE_CALL)
  {
    hide FieldBytes, Put, LongBytes, DecodeHello, DecodeCall, IsText, WordBytes, HalfBytes;
    SampleFields();
    SampleWords();
    var name, cap, op := Text("a", MAX_TEXT), Text("x", MAX_TEXT), Text("y", MAX_TEXT);
    var counts, value := Raw(HalfBytes(1) + WordBytes(1)), Raw(LongBytes(-2));
    RawField(HalfBytes(1) + WordBytes(1));
    RawField(LongBytes(-2));
    ThreeFields(name, counts, cap);
    ThreeFields(cap, op, value);
    assert CapFields(["x"]) == [cap];
    assert Fields(SAMPLE_HELLO) == [name, counts, cap];
    assert Fields(SAMPLE_CALL) == [cap, op, value];
    HelloRound(7, SAMPLE_HELLO, 128);
    CallRound(7, SAMPLE_CALL, 128);
  }

  lemma {:induction false} RawField(b: seq<byte>)
    ensures IsField(Raw(b)) && FieldBytes(Raw(b)) == b
  {
  }

  lemma {:induction false} SampleWords()
    ensures WordBytes(7) == [7, 0, 0, 0] && WordBytes(12) == [12, 0, 0, 0] && WordBytes(14) == [14, 0, 0, 0]
  {
  }
}
