/** Client frames of the WebSocket protocol as the bridge decodes them, and the frames it sends
    (sections 5.2 and 5.3 of RFC 6455). */
module WebSocket {
  import opened Values

  const MAX_PAYLOAD := 65536

  datatype WsFrame = WsFrame(fin: bool, opcode: nat, payload: seq<byte>)

  /** What the front of a buffer is.  The decoder gives up on `Incomplete` and on `Invalid` alike. */
  datatype Verdict = Complete(frame: WsFrame, consumed: nat) | Incomplete | Invalid

  // ---------- masking ----------

  /** Exclusive or of the lowest `bits` bits. */
  function XorBits(a: nat, b: nat, bits: nat): (r: nat) {
    if bits == 0 then 0 else 2 * XorBits(a / 2, b / 2, bits - 1) + if a % 2 == b % 2 then 0 else 1
  }

  function Range(bits: nat): nat {
    if bits == 0 then 1 else 2 * Range(bits - 1)
  }

  lemma {:induction false} Half(q: nat, r: nat)
    requires r <= 1
    ensures (2 * q + r) / 2 == q && (2 * q + r) % 2 == r
  {
  }

  lemma {:induction false} XorBitsTwice(a: nat, b: nat, bits: nat)
    requires a < Range(bits)
    ensures XorBits(a, b, bits) < Range(bits)
    ensures XorBits(XorBits(a, b, bits), b, bits) == a
    decreases bits
  {
    if bits != 0 {
      XorBitsTwice(a / 2, b / 2, bits - 1);
      Half(XorBits(a / 2, b / 2, bits - 1), if a % 2 == b % 2 then 0 else 1);
    }
  }

  lemma {:induction false} XorSmall(a: nat, b: nat, bits: nat)
    ensures XorBits(a, b, bits) < Range(bits)
  {
    if bits != 0 {
      XorSmall(a / 2, b / 2, bits - 1);
    }
  }

  function Xor(a: byte, b: byte): byte {
    XorSmall(a as nat, b as nat, 8);
    assert Range(8) == 0x100;
    XorBits(a as nat, b as nat, 8) as byte
  }

  lemma {:induction false} XorTwice(a: byte, b: byte)
    ensures Xor(Xor(a, b), b) == a
  {
    assert Range(8) == 0x100;
    XorBitsTwice(a as nat, b as nat, 8);
  }

  function Mask(data: seq<byte>, key: seq<byte>): (r: seq<byte>)
    requires |key| == 4
    ensures |r| == |data|
  {
    seq(|data|, i requires 0 <= i < |data| => Xor(data[i], key[i % 4]))
  }

  lemma {:induction false} MaskTwice(data: seq<byte>, key: seq<byte>)
    requires |key| == 4
    ensures Mask(Mask(data, key), key) == data
  {
    hide Xor;
    forall i | 0 <= i < |data|
      ensures Mask(Mask(data, key), key)[i] == data[i]
    {
      XorTwice(data[i], key[i % 4]);
    }
  }

  // ---------- decoding ----------

  function BigEndian(b: seq<byte>): nat {
    if b == [] then 0 else BigEndian(b[..|b| - 1]) * 0x100 + b[|b| - 1] as nat
  }

  /** Bytes of the extended length field. */
  function LengthBytes(short: nat): nat {
    if short == 126 then 2 else if short == 127 then 8 else 0
  }

  /** aivm_ws_decode_client_frame */
  function Decode(b: seq<byte>): (v: Verdict)
    ensures v.Complete? ==> 6 <= v.consumed <= |b|
  {
    if |b| < 2 then Incomplete
    else if b[1] < 0x80 then Invalid
    else
      var short := b[1] as nat % 0x80;
      var index := 2 + LengthBytes(short);
      if index > |b| then Incomplete
      else
        var length := if short < 126 then short else BigEndian(b[2..index]);
        if length > MAX_PAYLOAD then Invalid
        else if index + 4 + length > |b| then Incomplete
        else
          Complete(
            WsFrame(b[0] >= 0x80, b[0] as nat % 0x10, Mask(b[index + 4..index + 4 + length], b[index..index + 4])),
            index + 4 + length)
  }

  /** More bytes behind a decided head change nothing. */
  lemma {:induction false} DecodeStable(b: seq<byte>, more: seq<byte>)
    requires !Decode(b).Incomplete?
    ensures Decode(b + more) == Decode(b)
  {
    hide BigEndian, Mask;
    var c := b + more;
    assert c[0] == b[0] && c[1] == b[1];
    var short := b[1] as nat % 0x80;
    var index := 2 + LengthBytes(short);
    if b[1] >= 0x80 && index <= |b| {
      assert c[2..index] == b[2..index];
      var length := if short < 126 then short else BigEndian(b[2..index]);
      if length <= MAX_PAYLOAD && index + 4 + length <= |b| {
        assert c[index..index + 4] == b[index..index + 4];
        assert c[index + 4..index + 4 + length] == b[index + 4..index + 4 + length];
      }
    }
  }

  const MAX_FRAME := 14 + MAX_PAYLOAD

  /** A head is decided once a whole frame's worth of bytes is there. */
  lemma {:induction false} DecodeDecided(b: seq<byte>)
    ensures |b| >= MAX_FRAME ==> !Decode(b).Incomplete?
  {
    hide BigEndian, Mask;
  }

  // ---------- what a client sends ----------

  function Digits(n: nat, width: nat): (b: seq<byte>)
    ensures |b| == width
  {
    if width == 0 then [] else Digits(n / 0x100, width - 1) + [(n % 0x100) as byte]
  }

  function Power(width: nat): nat {
    if width == 0 then 1 else 0x100 * Power(width - 1)
  }

  lemma {:induction false} DigitsRound(n: nat, width: nat)
    requires n < Power(width)
    ensures BigEndian(Digits(n, width)) == n
    decreases width
  {
    if width != 0 {
      DigitsRound(n / 0x100, width - 1);
      var b := Digits(n, width);
      assert b[..|b| - 1] == Digits(n / 0x100, width - 1);
    }
  }

  /** The smallest length field that holds `n`. */
  function LengthField(n: nat, flag: nat): (b: seq<byte>)
    requires flag == 0 || flag == 0x80
  {
    if n < 126 then [(flag + n) as byte]
    else if n < 0x1_0000 then [(flag + 126) as byte] + Digits(n, 2)
    else [(flag + 127) as byte] + Digits(n, 8)
  }

  /** A masked client frame. */
  function ClientFrame(frame: WsFrame, key: seq<byte>): seq<byte>
    requires frame.opcode < 0x10 && |key| == 4
  {
    [((if frame.fin then 0x80 else 0) + frame.opcode) as byte] + LengthField(|frame.payload|, 0x80) + key +
    Mask(frame.payload, key)
  }

  lemma {:induction false} LengthRead(n: nat, field: seq<byte>)
    requires n <= MAX_PAYLOAD && field == LengthField(n, 0x80)
    ensures |field| >= 1 && field[0] >= 0x80
    ensures var short := field[0] as nat % 0x80;
      |field| == 1 + LengthBytes(short) && n == if short < 126 then short else BigEndian(field[1..])
  {
    hide BigEndian, Digits;
    if n >= 126 {
      var width := if n < 0x1_0000 then 2 else 8;
      PowerBig();
      DigitsRound(n, width);
      assert field[1..] == Digits(n, width);
    }
  }

  lemma {:induction false} PowerBig()
    ensures Power(2) == 0x1_0000 && Power(8) > MAX_PAYLOAD
  {
    assert Power(3) == 0x100 * Power(2) && Power(4) == 0x100 * Power(3) && Power(5) == 0x100 * Power(4);
    assert Power(6) == 0x100 * Power(5) && Power(7) == 0x100 * Power(6) && Power(8) == 0x100 * Power(7);
  }

  /** Decoding a client's frame gives it back unmasked, whatever key masked it. */
  lemma {:induction false} ClientRound(frame: WsFrame, key: seq<byte>)
    requires frame.opcode < 0x10 && |key| == 4 && |frame.payload| <= MAX_PAYLOAD
    ensures Decode(ClientFrame(frame, key)) == Complete(frame, |ClientFrame(frame, key)|)
  {
    hide BigEndian, Mask, LengthField;
    var n := |frame.payload|;
    var field, masked := LengthField(n, 0x80), Mask(frame.payload, key);
    var first := ((if frame.fin then 0x80 else 0) + frame.opcode) as byte;
    var b := [first] + field + key + masked;
    assert b == ClientFrame(frame, key);
    LengthRead(n, field);
    MaskTwice(frame.payload, key);
    var index := 1 + |field|;
    assert b[0] == first && b[1] == field[0];
    assert b[2..index] == field[1..];
    assert b[index..index + 4] == key;
    assert b[index + 4..index + 4 + n] == masked;
  }

  /** A masked frame with a length field of any of the three widths, in front of other bytes: first byte, length, key,
      masked payload. */
  predicate FrameAt(b: seq<byte>, fin: bool, opcode: nat, payload: seq<byte>, consumed: nat) {
    && |b| >= 2 && b[1] >= 0x80
    && (fin <==> b[0] >= 0x80) && b[0] as nat % 16 == opcode
    && var short := b[1] as nat - 0x80;
       var index := if short == 126 then 4 else if short == 127 then 10 else 2;
       && consumed == index + 4 + |payload| <= |b|
       && |payload| == (if short < 126 then short else BigEndian(b[2..index]))
       && Mask(payload, b[index..index + 4]) == b[index + 4..consumed]
  }

  /** The decoder takes exactly such frames of up to 65536 bytes of payload, and refuses for good exactly unmasked
      frames and longer ones. */
  lemma {:induction false} DecodeExact(b: seq<byte>, frame: WsFrame, consumed: nat)
    ensures Decode(b) == Complete(frame, consumed) <==>
      |frame.payload| <= 65536 && FrameAt(b, frame.fin, frame.opcode, frame.payload, consumed)
  {
    hide BigEndian, Mask;
    if Decode(b) == Complete(frame, consumed) {
      Unmasked(b, frame.payload, consumed);
    }
    if FrameAt(b, frame.fin, frame.opcode, frame.payload, consumed) {
      var short := b[1] as nat - 0x80;
      var index := if short == 126 then 4 else if short == 127 then 10 else 2;
      MaskTwice(frame.payload, b[index..index + 4]);
    }
  }

  lemma {:induction false} Unmasked(b: seq<byte>, payload: seq<byte>, consumed: nat)
    requires Decode(b).Complete? && Decode(b).frame.payload == payload && Decode(b).consumed == consumed
    ensures var index := 2 + LengthBytes(b[1] as nat % 0x80);
      index + 4 <= consumed <= |b| && Mask(payload, b[index..index + 4]) == b[index + 4..consumed]
  {
    hide BigEndian, Mask;
    var index := 2 + LengthBytes(b[1] as nat % 0x80);
    MaskTwice(b[index + 4..consumed], b[index..index + 4]);
  }

  lemma {:induction false} InvalidExact(b: seq<byte>)
    ensures Decode(b).Invalid? <==>
      && |b| >= 2
      && (|| b[1] < 0x80
          || (b[1] == 0xFE && |b| >= 4 && BigEndian(b[2..4]) > 65536)
          || (b[1] == 0xFF && |b| >= 10 && BigEndian(b[2..10]) > 65536))
  {
    hide BigEndian, Mask;
  }

  // ---------- what the bridge sends ----------

  datatype Sent = Sent(b: seq<byte>) | NotSent

  /** aivm_ws_encode_server_control: the longer length field is always 16 bits wide. */
  function EncodeServer(opcode: nat, payload: seq<byte>, capacity: nat): Sent {
    var n := |payload|;
    if n > MAX_PAYLOAD || capacity < 2 then NotSent
    else
      var head := [(0x80 + opcode % 0x10) as byte] +
        if n <= 125 then [n as byte] else [126] + Digits(n % 0x1_0000, 2);
      if capacity < |head| + n then NotSent else Sent(head + payload)
  }

  /** What a client makes of an unmasked final frame: the opcode, the payload, and nothing left over. */
  predicate ReadsAs(b: seq<byte>, opcode: nat, payload: seq<byte>) {
    && |b| >= 2 && b[0] as nat == 0x80 + opcode && b[1] < 0x80
    && var index := 2 + LengthBytes(b[1] as nat);
    && index <= |b| && b[index..] == payload
    && |payload| == if b[1] < 126 then b[1] as nat else BigEndian(b[2..index])
  }

  /** The bridge's frames are well formed exactly up to 65535 bytes of payload; at 65536 the length field
      reads 0. */
  lemma {:induction false} ServerRound(opcode: nat, payload: seq<byte>, capacity: nat)
    requires opcode < 0x10 && EncodeServer(opcode, payload, capacity).Sent?
    ensures ReadsAs(EncodeServer(opcode, payload, capacity).b, opcode, payload) <==> |payload| < 0x1_0000
  {
    hide BigEndian, Digits;
    var n, b := |payload|, EncodeServer(opcode, payload, capacity).b;
    if n <= 125 {
      assert b[2..] == payload;
    } else {
      PowerBig();
      DigitsRound(n % 0x1_0000, 2);
      assert b[2..4] == Digits(n % 0x1_0000, 2);
      assert b[4..] == payload;
    }
  }

  // ---------- exclusive or, bit by bit ----------

  function Bit(a: nat, k: nat): nat {
    if k == 0 then a % 2 else Bit(a / 2, k - 1)
  }

  lemma {:induction false} XorBit(a: nat, b: nat, bits: nat, k: nat)
    requires k < bits
    ensures Bit(XorBits(a, b, bits), k) == if Bit(a, k) == Bit(b, k) then 0 else 1
    decreases bits
  {
    Half(XorBits(a / 2, b / 2, bits - 1), if a % 2 == b % 2 then 0 else 1);
    if k != 0 {
      XorBit(a / 2, b / 2, bits - 1, k - 1);
    }
  }

  /** A masked byte has a bit set exactly where one of the two bytes has it set. */
  lemma {:induction false} XorByte(a: byte, b: byte, k: nat)
    requires k < 8
    ensures Bit(Xor(a, b) as nat, k) == if Bit(a as nat, k) == Bit(b as nat, k) then 0 else 1
  {
    XorBit(a as nat, b as nat, 8, k);
  }

  // ---------- the example of section 5.7 of RFC 6455 ----------

  const HELLO: seq<byte> := [0x48, 0x65, 0x6c, 0x6c, 0x6f]
  const MASKED_HELLO: seq<byte> := [0x81, 0x85, 0x37, 0xfa, 0x21, 0x3d, 0x7f, 0x9f, 0x4d, 0x51, 0x58]

  function Differ(a: nat, b: nat): nat {
    if a % 2 == b % 2 then 0 else 1
  }

  lemma {:induction false} XorStep(a: nat, b: nat, bits: nat)
    requires bits >= 1
    ensures XorBits(a, b, bits) == 2 * XorBits(a / 2, b / 2, bits - 1) + Differ(a, b)
    ensures a / 2 / 2 == a / 4 && a / 4 / 2 == a / 8 && a / 8 / 2 == a / 16
  {
  }

  lemma {:induction false} Xor4(a: nat, b: nat, bits: nat)
    requires bits >= 4
    ensures XorBits(a, b, bits) == Differ(a, b) + 2 * Differ(a / 2, b / 2) + 4 * Differ(a / 4, b / 4)
      + 8 * Differ(a / 8, b / 8) + 16 * XorBits(a / 16, b / 16, bits - 4)
  {
    hide XorBits, Differ;
    XorStep(a, b, bits);
    XorStep(b, a, bits);
    XorStep(a / 2, b / 2, bits - 1);
    XorStep(a / 4, b / 4, bits - 2);
    XorStep(a / 8, b / 8, bits - 3);
  }

  lemma {:induction false} XorNibbles(x: nat, y: nat)
    requires x < 0x10 && y < 0x10
    ensures XorBits(x, y, 4) == Differ(x, y) + 2 * Differ(x / 2, y / 2) + 4 * Differ(x / 4, y / 4) + 8 * Differ(x / 8, y / 8)
  {
    Xor4(x, y, 4);
  }

  lemma {:induction false} MaskBytes()
    ensures Xor(0x48, 0x37) == 0x7f && Xor(0x65, 0xfa) == 0x9f && Xor(0x6c, 0x21) == 0x4d
    ensures Xor(0x6c, 0x3d) == 0x51 && Xor(0x6f, 0x37) == 0x58
  {
    hide XorBits;
    Xor4(0x48, 0x37, 8);
    XorNibbles(4, 3);
    Xor4(0x65, 0xfa, 8);
    XorNibbles(6, 0xf);
    Xor4(0x6c, 0x21, 8);
    XorNibbles(6, 2);
    Xor4(0x6c, 0x3d, 8);
    XorNibbles(6, 3);
    Xor4(0x6f, 0x37, 8);
  }

  /** A masked text message of one frame. */
  lemma {:induction false} MaskedHello()
    ensures ClientFrame(WsFrame(true, 1, HELLO), [0x37, 0xfa, 0x21, 0x3d]) == MASKED_HELLO
    ensures Decode(MASKED_HELLO) == Complete(WsFrame(true, 1, HELLO), 11)
  {
    hide Xor, Decode;
    var frame, key: seq<byte> := WsFrame(true, 1, HELLO), [0x37, 0xfa, 0x21, 0x3d];
    MaskBytes();
    assert Mask(HELLO, key) == [0x7f, 0x9f, 0x4d, 0x51, 0x58];
    assert ClientFrame(frame, key) == MASKED_HELLO;
    ClientRound(frame, key);
  }

  /** The same text unmasked, as a server sends it; the bridge's own opcodes differ. */
  lemma {:induction false} PlainHello()
    ensures EncodeServer(1, HELLO, 16) == Sent([0x81, 0x05, 0x48, 0x65, 0x6c, 0x6c, 0x6f])
  {
    assert [0x81 as byte] + [0x05] + HELLO == [0x81, 0x05, 0x48, 0x65, 0x6c, 0x6c, 0x6f];
  }
}
