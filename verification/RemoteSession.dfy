/** The remote server's session: a handshake that grants capabilities, and calls that need them. */
module RemoteSession {
  import opened Values
  import opened Aibc1
  import opened RemoteCodec
  import opened FrameBuffer

  datatype Config = Config(proto: nat, allowed: seq<string>)

  predicate IsConfig(config: Config) {
    config.proto < U16
  }

  datatype Session = Session(handshake: bool, proto: nat, granted: seq<string>)

  const FRESH := Session(false, 0, [])

  datatype SessionStatus = Fine | CodecError | TooManyCaps

  /** What one input frame does: a status, the new session state, and the reply. */
  datatype Turn = Turn(status: SessionStatus, s: Session, out: seq<byte>)

  /** The requested capabilities that are allowed, in order, as many as fit. */
  function Grant(config: Config, caps: seq<string>, done: seq<string>): (granted: seq<string>)
    decreases |caps|
  {
    if caps == [] then done
    else if caps[0] in config.allowed && |done| < MAX_CAPS then Grant(config, caps[1..], done + [caps[0]])
    else Grant(config, caps[1..], done)
  }

  function Send(s: Session, id: nat, m: Message, capacity: nat): Turn
    requires IsMessage(m)
  {
    match Encode(id, m, capacity)
    case Written(b) => Turn(Fine, s, b)
    case Failed(_) => Turn(CodecError, s, [])
  }

  const NO_HANDSHAKE := "remote session handshake" + " is required before CALL."
  const NOT_GRANTED := "remote capability is not" + " granted for this session."
  const NO_OPERATION := "remote operation is" + " not available."
  const BAD_TYPE := "remote frame type is" + " not supported."

  lemma {:induction false} NoticeText()
    ensures IsText(NO_HANDSHAKE) && IsText(NOT_GRANTED) && IsText(NO_OPERATION) && IsText(BAD_TYPE)
    ensures |NO_HANDSHAKE| <= 64 && |NOT_GRANTED| <= 64 && |NO_OPERATION| <= 64 && |BAD_TYPE| <= 64
  {
    HandshakeText();
    GrantedText();
    OperationText();
  }

  lemma {:induction false} HandshakeText()
    ensures IsText(NO_HANDSHAKE)
  {
    assert IsText("remote session handshake");
    assert IsText(" is required before CALL.");
  }

  lemma {:induction false} GrantedText()
    ensures IsText(NOT_GRANTED)
  {
    assert IsText("remote capability is not");
    assert IsText(" granted for this session.");
  }

  lemma {:induction false} OperationText()
    ensures IsText(NO_OPERATION) && IsText(BAD_TYPE)
  {
    assert IsText("remote operation is");
    assert IsText(" not available.");
    assert IsText("remote frame type is");
    assert IsText(" not supported.");
  }

  function SendError(s: Session, id: nat, code: nat, text: string, capacity: nat): Turn
    requires code < U32 && IsText(text)
  {
    Send(s, id, Error(code, text), capacity)
  }

  function ProcessHello(config: Config, s: Session, input: seq<byte>, capacity: nat): Turn
    requires IsConfig(config)
  {
    match DecodeHello(input)
    case Refused(_) => Turn(CodecError, s, [])
    case Received(id, m) =>
      DecodedHello(input);
      var granted := Grant(config, m.caps, []);
      GrantText(config, m.caps, []);
      GrantSize(config, m.caps);
      Send(Session(true, config.proto, granted), id, Welcome(config.proto, granted), capacity)
  }

  function ProcessCall(s: Session, input: seq<byte>, capacity: nat): Turn {
    match DecodeCall(input)
    case Refused(_) => Turn(CodecError, s, [])
    case Received(id, m) =>
      NoticeText();
      if !s.handshake then SendError(s, id, 401, NO_HANDSHAKE, capacity)
      else if m.cap !in s.granted then SendError(s, id, 403, NOT_GRANTED, capacity)
      else if m.cap == "cap.remote" && m.op == "echoInt" then Send(s, id, Result(m.value), capacity)
      else SendError(s, id, 404, NO_OPERATION, capacity)
  }

  /** aivm_remote_server_process_frame */
  function Process(config: Config, s: Session, input: seq<byte>, capacity: nat): Turn
    requires IsConfig(config)
  {
    if input == [] then Turn(CodecError, s, [])
    else if |config.allowed| > MAX_CAPS then Turn(TooManyCaps, s, [])
    else if input[0] == 0x01 then ProcessHello(config, s, input, capacity)
    else if input[0] == 0x10 then ProcessCall(s, input, capacity)
    else
      NoticeText();
      SendError(s, 0, 400, BAD_TYPE, capacity)
  }

  // ---------- decoded messages are within the limits ----------

  lemma {:induction false} ReadCapsText(b: seq<byte>, at: nat, n: nat, done: seq<string>)
    requires AllText(done) && forall i :: 0 <= i < |done| ==> |done[i]| <= MAX_TEXT
    ensures var r := ReadCaps(b, at, n, done);
      r.GotCaps? ==> |r.caps| == |done| + n && AllText(r.caps) && forall i :: 0 <= i < |r.caps| ==> |r.caps[i]| <= MAX_TEXT
    decreases n
  {
    hide ReadText, IsText;
    if n != 0 {
      match ReadText(b, at, MAX_TEXT)
      case BadText(_) =>
      case GotText(s, next) =>
        ReadTextOk(b, at, MAX_TEXT);
        ReadCapsText(b, next, n - 1, done + [s]);
    }
  }

  lemma {:induction false} ReadTextOk(b: seq<byte>, at: nat, max: nat)
    ensures var r := ReadText(b, at, max); r.GotText? ==> IsText(r.s) && |r.s| <= max
  {
  }

  lemma {:induction false} DecodedHello(b: seq<byte>)
    ensures DecodeHello(b).Received? ==>
      && DecodeHello(b).m.Hello? && IsMessage(DecodeHello(b).m) && DecodeHello(b).id < U32
      && |DecodeHello(b).m.caps| <= MAX_CAPS
      && forall i :: 0 <= i < |DecodeHello(b).m.caps| ==> |DecodeHello(b).m.caps[i]| <= MAX_TEXT
  {
    hide ReadText, ReadCaps, CheckHeader, IsText;
    ReadTextOk(b, HEADER_SIZE, MAX_TEXT);
    match ReadText(b, HEADER_SIZE, MAX_TEXT)
    case BadText(_) =>
    case GotText(_, next) =>
      if next + 6 <= |b| {
        ReadCapsText(b, next + 6, ReadWord(b, next + 2), []);
      }
  }

  lemma {:induction false} GrantText(config: Config, caps: seq<string>, done: seq<string>)
    requires AllText(caps) && AllText(done)
    ensures AllText(Grant(config, caps, done))
    decreases |caps|
  {
    hide IsText;
    if caps != [] {
      GrantText(config, caps[1..], done + [caps[0]]);
      GrantText(config, caps[1..], done);
    }
  }

  /** What is granted was requested and is allowed; nothing allowed is left out while there is room. */
  lemma {:induction false} GrantExact(config: Config, caps: seq<string>, done: seq<string>, c: string)
    requires |done| + |caps| <= MAX_CAPS
    ensures c in Grant(config, caps, done) <==> c in done || (c in caps && c in config.allowed)
    ensures |Grant(config, caps, done)| <= |done| + |caps|
    decreases |caps|
  {
    if caps != [] {
      GrantExact(config, caps[1..], done + [caps[0]], c);
      GrantExact(config, caps[1..], done, c);
      assert caps == [caps[0]] + caps[1..];
    }
  }

  /** The requested list with the disallowed entries dropped, in order: as long as all of it would fit, what is
      granted of two lists in a row is what is granted of each, and of a single entry that entry or nothing. */
  lemma {:induction false} GrantOrder(config: Config, a: seq<string>, b: seq<string>, c: string)
    requires |a| + |b| <= MAX_CAPS
    ensures Grant(config, a + b, []) == Grant(config, a, []) + Grant(config, b, [])
    ensures Grant(config, [c], []) == (if c in config.allowed then [c] else []) && Grant(config, [], []) == []
  {
    GrantBehind(config, a, b, []);
    GrantExact(config, a, [], "");
    GrantFrom(config, b, Grant(config, a, []));
    assert [c][1..] == [];
  }

  lemma {:induction false} GrantBehind(config: Config, a: seq<string>, b: seq<string>, done: seq<string>)
    ensures Grant(config, a + b, done) == Grant(config, b, Grant(config, a, done))
    decreases |a|
  {
    if a == [] {
      assert a + b == b;
    } else {
      assert (a + b)[0] == a[0] && (a + b)[1..] == a[1..] + b;
      GrantBehind(config, a[1..], b, done + [a[0]]);
      GrantBehind(config, a[1..], b, done);
    }
  }

  lemma {:induction false} GrantFrom(config: Config, caps: seq<string>, done: seq<string>)
    requires |done| + |caps| <= MAX_CAPS
    ensures Grant(config, caps, done) == done + Grant(config, caps, [])
    decreases |caps|
  {
    if caps != [] {
      var c, rest := caps[0], caps[1..];
      if c in config.allowed {
        GrantFrom(config, rest, done + [c]);
        GrantFrom(config, rest, [c]);
        assert [] + [c] == [c];
        assert done + [c] + Grant(config, rest, []) == done + ([c] + Grant(config, rest, []));
      } else {
        GrantFrom(config, rest, done);
      }
    }
  }

  lemma {:induction false} GrantShort(config: Config, caps: seq<string>, done: seq<string>)
    requires (forall i :: 0 <= i < |caps| ==> |caps[i]| <= MAX_TEXT) && forall i :: 0 <= i < |done| ==> |done[i]| <= MAX_TEXT
    ensures forall i :: 0 <= i < |Grant(config, caps, done)| ==> |Grant(config, caps, done)[i]| <= MAX_TEXT
    decreases |caps|
  {
    if caps != [] {
      GrantShort(config, caps[1..], done + [caps[0]]);
      GrantShort(config, caps[1..], done);
    }
  }

  // ---------- whole conversations ----------

  /** The session after a sequence of input frames, starting fresh. */
  function After(config: Config, frames: seq<seq<byte>>, capacity: nat): Session
    requires IsConfig(config)
    decreases |frames|
  {
    if frames == [] then FRESH
    else Process(config, After(config, frames[..|frames| - 1], capacity), frames[|frames| - 1], capacity).s
  }

  predicate IsHello(b: seq<byte>) {
    b != [] && b[0] == 0x01 && DecodeHello(b).Received?
  }

  /** Position of the last frame that is a decodable HELLO. */
  function LastHello(frames: seq<seq<byte>>): (k: int)
    ensures -1 <= k < |frames|
    ensures k >= 0 ==> IsHello(frames[k])
    ensures forall i :: k < i < |frames| ==> !IsHello(frames[i])
    decreases |frames|
  {
    if frames == [] then -1
    else if IsHello(frames[|frames| - 1]) then |frames| - 1
    else LastHello(frames[..|frames| - 1])
  }

  /** Only a decodable HELLO changes the session, and then nothing of the old one is left. */
  lemma {:induction false} TurnSession(config: Config, s: Session, input: seq<byte>, capacity: nat)
    requires IsConfig(config) && |config.allowed| <= MAX_CAPS
    ensures var t := Process(config, s, input, capacity).s;
      if IsHello(input) then t == Session(true, config.proto, Grant(config, DecodeHello(input).m.caps, []))
      else t == s
  {
    hide Encode, DecodeHello, DecodeCall, Grant;
  }

  /** The session is a function of the latest decodable HELLO alone. */
  lemma {:induction false} AfterLatest(config: Config, frames: seq<seq<byte>>, capacity: nat)
    requires IsConfig(config) && |config.allowed| <= MAX_CAPS
    ensures var k := LastHello(frames);
      After(config, frames, capacity) ==
        if k < 0 then FRESH
        else Session(true, config.proto, Grant(config, DecodeHello(frames[k]).m.caps, []))
    decreases |frames|
  {
    hide Process, Grant, IsHello;
    if frames != [] {
      var n := |frames| - 1;
      AfterLatest(config, frames[..n], capacity);
      TurnSession(config, After(config, frames[..n], capacity), frames[n], capacity);
    }
  }

  /** On every conversation the granted capabilities are allowed ones. */
  lemma {:induction false} GrantedAllowed(config: Config, frames: seq<seq<byte>>, capacity: nat, c: string)
    requires IsConfig(config) && |config.allowed| <= MAX_CAPS && c in After(config, frames, capacity).granted
    ensures c in config.allowed
  {
    hide Grant, DecodeHello;
    AfterLatest(config, frames, capacity);
    var k := LastHello(frames);
    DecodedHello(frames[k]);
    GrantExact(config, DecodeHello(frames[k]).m.caps, [], c);
  }

  /** A reply is a RESULT. */
  predicate IsResult(t: Turn) {
    t.status == Fine && t.out != [] && t.out[0] == 0x11
  }

  lemma {:induction false} SendType(s: Session, id: nat, m: Message, capacity: nat)
    requires IsMessage(m) && id < U32
    ensures Send(s, id, m, capacity).status == Fine ==>
      |Send(s, id, m, capacity).out| >= HEADER_SIZE && Send(s, id, m, capacity).out[0] == TypeByte(m)
  {
    hide Fields, Payload, Put, Lies;
    if Encode(id, m, capacity).Written? {
      FrameParts(id, m, capacity);
    }
  }

  lemma {:induction false} DecodedCall(b: seq<byte>)
    ensures DecodeCall(b).Received? ==>
      && DecodeCall(b).m.Call? && IsMessage(DecodeCall(b).m) && DecodeCall(b).id < U32
  {
    hide ReadText, CheckHeader, IsText;
    ReadTextOk(b, HEADER_SIZE, MAX_TEXT);
    match ReadText(b, HEADER_SIZE, MAX_TEXT)
    case BadText(_) =>
    case GotText(_, next) => ReadTextOk(b, next, MAX_TEXT);
  }

  /** Protocol safety: whatever frames came before, a RESULT answers a CALL whose capability the latest
      decodable HELLO asked for and the configuration allows, and carries that call's id and value. */
  lemma {:induction false} ResultSafe(config: Config, frames: seq<seq<byte>>, input: seq<byte>, capacity: nat)
    requires IsConfig(config) && |config.allowed| <= MAX_CAPS
    requires IsResult(Process(config, After(config, frames, capacity), input, capacity))
    ensures var r, k := DecodeCall(input), LastHello(frames);
      && r.Received? && r.m.Call? && k >= 0
      && r.m.cap in DecodeHello(frames[k]).m.caps && r.m.cap in config.allowed
      && DecodeResult(Process(config, After(config, frames, capacity), input, capacity).out) ==
           Received(r.id, Result(r.m.value))
  {
    hide Encode, DecodeHello, DecodeCall, DecodeResult, Grant, After, IsText, Send;
    var s := After(config, frames, capacity);
    AfterLatest(config, frames, capacity);
    NoticeText();
    DecodedCall(input);
    ReplyKinds(config, s, input, capacity);
    var r, k := DecodeCall(input), LastHello(frames);
    DecodedHello(frames[k]);
    GrantExact(config, DecodeHello(frames[k]).m.caps, [], r.m.cap);
    SentResult(s, r.id, r.m.value, capacity);
  }

  lemma {:induction false} SentResult(s: Session, id: nat, value: int, capacity: nat)
    requires IsInt64(value) && id < U32 && Send(s, id, Result(value), capacity).status == Fine
    ensures DecodeResult(Send(s, id, Result(value), capacity).out) == Received(id, Result(value))
  {
    hide Encode, DecodeResult;
    ResultRound(id, Result(value), capacity);
  }

  /** A RESULT comes from the one branch that sends it. */
  lemma {:induction false} ReplyKinds(config: Config, s: Session, input: seq<byte>, capacity: nat)
    requires IsConfig(config) && IsResult(Process(config, s, input, capacity))
    ensures var r := DecodeCall(input);
      && r.Received? && r.m.Call? && IsInt64(r.m.value) && r.id < U32 && s.handshake && r.m.cap in s.granted
      && Process(config, s, input, capacity) == Send(s, r.id, Result(r.m.value), capacity)
  {
    hide Encode, DecodeHello, DecodeCall, Grant, IsText, Send;
    NoticeText();
    DecodedCall(input);
    DecodedHello(input);
    if input[0] == 0x01 {
      HelloReply(config, s, input, capacity);
    } else if input[0] == 0x10 {
      var r := DecodeCall(input);
      if r.Received? {
        SendType(s, r.id, Error(401, NO_HANDSHAKE), capacity);
        SendType(s, r.id, Error(403, NOT_GRANTED), capacity);
        SendType(s, r.id, Error(404, NO_OPERATION), capacity);
      }
    } else {
      SendType(s, 0, Error(400, BAD_TYPE), capacity);
    }
  }

  lemma {:induction false} HelloReply(config: Config, s: Session, input: seq<byte>, capacity: nat)
    requires IsConfig(config)
    ensures ProcessHello(config, s, input, capacity).status == Fine ==>
      ProcessHello(config, s, input, capacity).out != [] && ProcessHello(config, s, input, capacity).out[0] == 0x02
  {
    hide DecodeHello, Grant, Send;
    DecodedHello(input);
    if DecodeHello(input).Received? {
      var m := DecodeHello(input).m;
      var granted := Grant(config, m.caps, []);
      GrantText(config, m.caps, []);
      GrantSize(config, m.caps);
      SendType(Session(true, config.proto, granted), DecodeHello(input).id, Welcome(config.proto, granted), capacity);
    }
  }

  lemma {:induction false} GrantSize(config: Config, caps: seq<string>)
    requires |caps| <= MAX_CAPS
    ensures |Grant(config, caps, [])| <= MAX_CAPS
  {
    GrantExact(config, caps, [], "");
  }

  // ---------- every request gets an answer ----------

  const REPLY_CAPACITY := 1071

  lemma {:induction false} WelcomeFits(id: nat, proto: nat, caps: seq<string>, capacity: nat)
    requires proto < U16 && AllText(caps) && |caps| <= MAX_CAPS && capacity >= REPLY_CAPACITY
    requires forall i :: 0 <= i < |caps| ==> |caps[i]| <= MAX_TEXT
    ensures IsMessage(Welcome(proto, caps)) && Encode(id, Welcome(proto, caps), capacity).Written?
  {
    hide Encode, Payload, IsText, CapFields;
    var m, head := Welcome(proto, caps), Raw(HalfBytes(proto) + WordBytes(|caps|));
    EncodeExact(id, m, capacity);
    CapsShort(caps);
    CapsSize(caps);
    PayloadCons(head, CapFields(caps));
    assert TextsFit([head] + CapFields(caps));
  }

  lemma {:induction false} CapsShort(caps: seq<string>)
    requires forall i :: 0 <= i < |caps| ==> |caps[i]| <= MAX_TEXT
    ensures TextsFit(CapFields(caps))
  {
  }

  lemma {:induction false} ErrorFits(id: nat, code: nat, text: string, capacity: nat)
    requires code < U32 && IsText(text) && |text| <= 64 && capacity >= REPLY_CAPACITY
    ensures Encode(id, Error(code, text), capacity).Written?
  {
    hide Encode, Payload, IsText, WordBytes;
    EncodeExact(id, Error(code, text), capacity);
    PayloadTwo(Raw(WordBytes(code)), Text(text, MAX_ERROR_TEXT));
    TextFieldSize(text);
  }

  lemma {:induction false} ResultFits(id: nat, value: int, capacity: nat)
    requires IsInt64(value) && capacity >= REPLY_CAPACITY
    ensures Encode(id, Result(value), capacity).Written?
  {
    hide Encode, Payload, LongBytes;
    EncodeExact(id, Result(value), capacity);
    PayloadOne(Raw(LongBytes(value)));
  }

  /** The reply to a decodable HELLO is a decodable WELCOME with its id, once the reply buffer holds 1071
      bytes. */
  lemma {:induction false} HelloAnswered(config: Config, s: Session, input: seq<byte>, capacity: nat)
    requires IsConfig(config) && |config.allowed| <= MAX_CAPS && IsHello(input) && capacity >= REPLY_CAPACITY
    ensures var t := Process(config, s, input, capacity);
      t.status == Fine && DecodeWelcome(t.out) == Received(DecodeHello(input).id, Welcome(config.proto, t.s.granted))
  {
    hide Encode, DecodeHello, DecodeWelcome, Grant;
    DecodedHello(input);
    var id, m := DecodeHello(input).id, DecodeHello(input).m;
    var granted := Grant(config, m.caps, []);
    GrantText(config, m.caps, []);
    GrantSize(config, m.caps);
    GrantShort(config, m.caps, []);
    WelcomeFits(id, config.proto, granted, capacity);
    WelcomeRound(id, Welcome(config.proto, granted), capacity);
  }

  /** What a client with this session is told about its CALL. */
  function CallReply(s: Session, m: Message): Message
    requires m.Call?
  {
    if !s.handshake then Error(401, NO_HANDSHAKE)
    else if m.cap !in s.granted then Error(403, NOT_GRANTED)
    else if m.cap == "cap.remote" && m.op == "echoInt" then Result(m.value)
    else Error(404, NO_OPERATION)
  }

  /** The reply to a decodable CALL decodes, under the CALL's id, to what the session makes of it. */
  lemma {:induction false} CallAnswered(config: Config, s: Session, input: seq<byte>, capacity: nat)
    requires IsConfig(config) && |config.allowed| <= MAX_CAPS && capacity >= REPLY_CAPACITY
    requires input != [] && input[0] == 0x10 && DecodeCall(input).Received?
    ensures DecodeCall(input).m.Call?
    ensures var t, r := Process(config, s, input, capacity), DecodeCall(input);
      && t.status == Fine && t.s == s
      && Decode(CallReply(s, r.m), t.out) == Received(r.id, CallReply(s, r.m))
  {
    hide Encode, DecodeCall, DecodeResult, DecodeNotice, IsText;
    DecodedCall(input);
    NoticeText();
    var id, m := DecodeCall(input).id, DecodeCall(input).m;
    if s.handshake && m.cap in s.granted && m.cap == "cap.remote" && m.op == "echoInt" {
      ResultFits(id, m.value, capacity);
      ResultRound(id, Result(m.value), capacity);
    } else {
      var code := if !s.handshake then 401 else if m.cap !in s.granted then 403 else 404;
      var text := if !s.handshake then NO_HANDSHAKE else if m.cap !in s.granted then NOT_GRANTED else NO_OPERATION;
      ErrorFits(id, code, text, capacity);
      NoticeRound(id, Error(code, text), capacity);
    }
  }

  /** A frame of any other type is answered by ERROR 400 under id 0, and changes nothing. */
  lemma {:induction false} OtherAnswered(config: Config, s: Session, input: seq<byte>, capacity: nat)
    requires IsConfig(config) && |config.allowed| <= MAX_CAPS && capacity >= REPLY_CAPACITY
    requires input != [] && input[0] != 0x01 && input[0] != 0x10
    ensures var t := Process(config, s, input, capacity);
      && t.status == Fine && t.s == s
      && Decode(Error(400, BAD_TYPE), t.out) == Received(0, Error(400, BAD_TYPE))
  {
    hide Encode, DecodeNotice, IsText;
    NoticeText();
    ErrorFits(0, 400, BAD_TYPE, capacity);
    NoticeRound(0, Error(400, BAD_TYPE), capacity);
  }

  /** What cannot be decoded is not answered, and changes nothing; nor is anything if the configuration allows more
      capabilities than a frame holds. */
  lemma {:induction false} NotAnswered(config: Config, s: Session, input: seq<byte>, capacity: nat)
    requires IsConfig(config)
    ensures var t := Process(config, s, input, capacity);
      && (input == [] ==> t == Turn(CodecError, s, []))
      && (input != [] && |config.allowed| > MAX_CAPS ==> t == Turn(TooManyCaps, s, []))
      && (input != [] && |config.allowed| <= MAX_CAPS && input[0] == 0x01 && !DecodeHello(input).Received? ==>
            t == Turn(CodecError, s, []))
      && (input != [] && |config.allowed| <= MAX_CAPS && input[0] == 0x10 && !DecodeCall(input).Received? ==>
            t == Turn(CodecError, s, []))
  {
    hide DecodeHello, DecodeCall, Grant, Send;
  }

  // ---------- the session object ----------

  class ServerSession {
    var handshake: bool
    var proto: nat
    var granted: seq<string>

    ghost function Abs(): Session
      reads this
    {
      Session(handshake, proto, granted)
    }

    constructor ()
      ensures Abs() == FRESH
    {
      handshake, proto, granted := false, 0, [];
    }

    /** strcmp over a capability table. */
    static method Listed(caps: seq<string>, cap: string) returns (found: bool)
      ensures found <==> cap in caps
    {
      var i := 0;
      while i < |caps|
        invariant 0 <= i <= |caps| && cap !in caps[..i]
      {
        if caps[i] == cap {
          return true;
        }
        i := i + 1;
      }
      found := false;
    }

    static method SelectCaps(config: Config, caps: seq<string>) returns (selected: seq<string>)
      ensures selected == Grant(config, caps, [])
    {
      selected := [];
      var i := 0;
      while i < |caps|
        invariant 0 <= i <= |caps| && Grant(config, caps, []) == Grant(config, caps[i..], selected)
      {
        assert caps[i..][1..] == caps[i + 1..];
        var allowed := Listed(config.allowed, caps[i]);
        if allowed && |selected| < MAX_CAPS {
          selected := selected + [caps[i]];
        }
        i := i + 1;
      }
    }

    method ProcessFrame(config: Config, input: seq<byte>, capacity: nat) returns (status: SessionStatus, out: seq<byte>)
      requires IsConfig(config)
      modifies this
      ensures Turn(status, Abs(), out) == Process(config, old(Abs()), input, capacity)
    {
      hide Encode, DecodeHello, DecodeCall, Grant, IsText;
      NoticeText();
      if input == [] {
        return CodecError, [];
      }
      if |config.allowed| > MAX_CAPS {
        return TooManyCaps, [];
      }
      if input[0] == 0x01 {
        var reader := new FrameReader(input);
        var codec, id, hello := reader.ReadHello();
        if codec != Ok {
          return CodecError, [];
        }
        DecodedHello(input);
        GrantText(config, hello.caps, []);
        GrantSize(config, hello.caps);
        var selected := SelectCaps(config, hello.caps);
        handshake, proto, granted := true, config.proto, selected;
        status, out := Reply(id, Welcome(config.proto, selected), capacity);
      } else if input[0] == 0x10 {
        status, out := ProcessCallFrame(input, capacity);
      } else {
        status, out := Reply(0, Error(400, BAD_TYPE), capacity);
      }
    }

    method ProcessCallFrame(input: seq<byte>, capacity: nat) returns (status: SessionStatus, out: seq<byte>)
      ensures Turn(status, Abs(), out) == ProcessCall(Abs(), input, capacity)
    {
      hide Encode, DecodeCall, IsText;
      NoticeText();
      DecodedCall(input);
      var reader := new FrameReader(input);
      var codec, id, call := reader.ReadCall();
      if codec != Ok {
        return CodecError, [];
      }
      if !handshake {
        status, out := Reply(id, Error(401, NO_HANDSHAKE), capacity);
        return;
      }
      var known := Listed(granted, call.cap);
      if !known {
        status, out := Reply(id, Error(403, NOT_GRANTED), capacity);
      } else if call.cap == "cap.remote" && call.op == "echoInt" {
        status, out := Reply(id, Result(call.value), capacity);
      } else {
        status, out := Reply(id, Error(404, NO_OPERATION), capacity);
      }
    }

    method Reply(id: nat, m: Message, capacity: nat) returns (status: SessionStatus, out: seq<byte>)
      requires IsMessage(m)
      ensures Turn(status, Abs(), out) == Send(Abs(), id, m, capacity)
    {
      hide Encode;
      var writer := new FrameWriter(capacity);
      var codec := writer.EncodeMessage(id, m);
      if codec != Ok {
        return CodecError, [];
      }
      status, out := Fine, writer.out[..writer.index];
    }
  }
}
