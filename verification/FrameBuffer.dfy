/** The channel's encoders and decoders as they work on buffers with an advancing index, proved against
    RemoteCodec.dfy. */
module FrameBuffer {
  import opened Values
  import opened Aibc1
  import opened RemoteCodec

  /** What writing one field behind `used` payload bytes reports. */
  function FieldStatus(f: Field, used: nat, capacity: nat): Status
    requires IsField(f)
  {
    if f.Text? && |f.s| > f.max then Overflow
    else if HEADER_SIZE + used + |FieldBytes(f)| > capacity then Short
    else Ok
  }

  /** Writing the fields from the k-th on. */
  function PutFrom(fs: seq<Field>, k: nat, done: seq<byte>, capacity: nat): Encoded
    requires AreFields(fs) && k <= |fs|
  {
    Put(fs[k..], done, capacity)
  }

  /** Field by field: the first one that does not fit decides. */
  lemma {:induction false} NextField(fs: seq<Field>, k: nat, done: seq<byte>, capacity: nat)
    requires AreFields(fs) && k < |fs|
    ensures PutFrom(fs, k, done, capacity) ==
      var status := FieldStatus(fs[k], |done|, capacity);
      if status != Ok then Failed(status) else PutFrom(fs, k + 1, done + FieldBytes(fs[k]), capacity)
  {
    assert fs[k..][0] == fs[k] && fs[k..][1..] == fs[k + 1..];
  }

  lemma {:induction false} AllFields(fs: seq<Field>, done: seq<byte>, capacity: nat)
    requires AreFields(fs)
    ensures PutFrom(fs, 0, done, capacity) == Put(fs, done, capacity)
    ensures PutFrom(fs, |fs|, done, capacity) == Written(done)
  {
    assert fs[0..] == fs && fs[|fs|..] == [];
  }

  /** The fields from the k-th on are a version, a count and a list. */
  ghost predicate EndsIn(fs: seq<Field>, k: nat, proto: nat, caps: seq<string>) {
    k < |fs| && fs[k] == Raw(HalfBytes(proto) + WordBytes(|caps|)) && AreCaps(fs, k + 1, caps)
  }

  ghost predicate AreCaps(fs: seq<Field>, k: nat, caps: seq<string>) {
    k + |caps| == |fs| && forall i :: 0 <= i < |caps| ==> fs[k + i] == Text(caps[i], MAX_TEXT)
  }

  lemma {:induction false} ListAtEnd(m: Message)
    requires IsMessage(m)
    ensures m.Hello? ==> EndsIn(Fields(m), 1, m.proto, m.caps)
    ensures m.Welcome? ==> EndsIn(Fields(m), 0, m.proto, m.caps)
  {
    hide HalfBytes, WordBytes;
  }

  class FrameWriter {
    const out: array<byte>
    var index: nat

    ghost predicate Valid()
      reads this`index
    {
      HEADER_SIZE <= index && (index <= out.Length || index == HEADER_SIZE)
    }

    /** The payload so far. */
    ghost function Done(): (done: seq<byte>)
      requires Valid()
      reads this`index, out
      ensures |done| == index - HEADER_SIZE
    {
      if index <= out.Length then out[HEADER_SIZE..index] else []
    }

    constructor (capacity: nat)
      ensures Valid() && fresh(out) && out.Length == capacity && Done() == []
    {
      out := new byte[capacity](_ => 0);
      index := HEADER_SIZE;
    }

    ghost predicate Appended(done: seq<byte>, f: Field, status: Status)
      requires Valid() && IsField(f)
      reads this`index, out
    {
      && status == FieldStatus(f, |done|, out.Length)
      && (status == Ok ==> Done() == done + FieldBytes(f))
    }

    /** The result a caller sees is the specified one. */
    ghost predicate Made(status: Status, spec: Encoded)
      reads this`index, out
    {
      match spec
      case Written(b) => status == Ok && index <= out.Length && out[..index] == b
      case Failed(e) => status == e && e != Ok
    }

    method CopyIn(at: nat, b: seq<byte>)
      requires at + |b| <= out.Length
      modifies out
      ensures out[..at] == old(out[..at]) && out[at..at + |b|] == b
      ensures out[at + |b|..] == old(out[at + |b|..])
    {
      var i := 0;
      while i < |b|
        invariant 0 <= i <= |b| && out[at..at + i] == b[..i]
        invariant out[..at] == old(out[..at]) && out[at + i..] == old(out[at + i..])
      {
        out[at + i] := b[i];
        i := i + 1;
      }
    }

    /** write_string */
    method PutText(s: string, max: nat) returns (status: Status)
      requires Valid() && IsText(s) && max < U16
      modifies this`index, out
      ensures Valid() && Appended(old(Done()), Text(s, max), status)
    {
      if |s| > max {
        return Overflow;
      }
      status := PutRaw(HalfBytes(|s|) + TextBytes(s));
    }

    /** A room check and a write of fixed width. */
    method PutRaw(b: seq<byte>) returns (status: Status)
      requires Valid()
      modifies this`index, out
      ensures Valid() && Appended(old(Done()), Raw(b), status)
    {
      if index + |b| > out.Length {
        return Short;
      }
      ghost var done := Done();
      CopyIn(index, b);
      assert out[..index][HEADER_SIZE..] == done;
      index := index + |b|;
      assert Done() == done + b;
      status := Ok;
    }

    /** write_header, and the frame is complete. */
    method Finish(kind: byte, id: nat) returns (status: Status)
      requires Valid()
      modifies out
      ensures Valid()
      ensures Made(status, if out.Length < HEADER_SIZE then Failed(Short)
        else Written([kind] + WordBytes(id) + WordBytes(|old(Done())|) + old(Done())))
    {
      if out.Length < HEADER_SIZE {
        return Short;
      }
      ghost var done := Done();
      var header := [kind] + WordBytes(id) + WordBytes(index - HEADER_SIZE);
      CopyIn(0, header);
      assert out[..index] == out[0..HEADER_SIZE] + out[HEADER_SIZE..][..index - HEADER_SIZE];
      status := Ok;
    }

    /** aivm_remote_encode_hello */
    method EncodeHello(id: nat, m: Message) returns (status: Status)
      requires Valid() && Done() == [] && m.Hello? && IsMessage(m)
      modifies this`index, out
      ensures Made(status, Encode(id, m, out.Length))
    {
      hide FieldBytes, FieldStatus, WordBytes, HalfBytes, PutFrom;
      if |m.caps| > MAX_CAPS {
        return Overflow;
      }
      ghost var fs := Fields(m);
      AllFields(fs, Done(), out.Length);
      ListAtEnd(m);
      NextField(fs, 0, Done(), out.Length);
      status := PutText(m.name, MAX_TEXT);
      if status != Ok {
        return;
      }
      NextField(fs, 1, Done(), out.Length);
      status := PutCaps(m.proto, m.caps, fs, 1);
      if status == Ok {
        AllFields(fs, Done(), out.Length);
        status := Finish(TypeByte(m), id);
      }
    }

    /** aivm_remote_encode_welcome */
    method EncodeWelcome(id: nat, m: Message) returns (status: Status)
      requires Valid() && Done() == [] && m.Welcome? && IsMessage(m)
      modifies this`index, out
      ensures Made(status, Encode(id, m, out.Length))
    {
      hide FieldBytes, FieldStatus, WordBytes, HalfBytes, PutFrom;
      if |m.caps| > MAX_CAPS {
        return Overflow;
      }
      ghost var fs := Fields(m);
      AllFields(fs, Done(), out.Length);
      ListAtEnd(m);
      status := PutCaps(m.proto, m.caps, fs, 0);
      if status == Ok {
        AllFields(fs, Done(), out.Length);
        status := Finish(TypeByte(m), id);
      }
    }

    /** The version, the count, and the list: the last fields of `fs`, from the k-th on. */
    method PutCaps(proto: nat, caps: seq<string>, ghost fs: seq<Field>, ghost k: nat) returns (status: Status)
      requires Valid() && AllText(caps) && AreFields(fs) && EndsIn(fs, k, proto, caps)
      modifies this`index, out
      ensures Valid()
      ensures match PutFrom(fs, k, old(Done()), out.Length)
        case Written(payload) => status == Ok && Done() == payload
        case Failed(e) => status == e && e != Ok
    {
      hide FieldBytes, FieldStatus, WordBytes, HalfBytes, IsText, PutFrom, AreCaps;
      NextField(fs, k, Done(), out.Length);
      status := PutRaw(HalfBytes(proto) + WordBytes(|caps|));
      if status != Ok {
        return;
      }
      status := PutList(caps, fs, k + 1);
    }

    /** One field for each text. */
    method PutList(caps: seq<string>, ghost fs: seq<Field>, ghost k: nat) returns (status: Status)
      requires Valid() && AllText(caps) && AreFields(fs) && AreCaps(fs, k, caps)
      modifies this`index, out
      ensures Valid()
      ensures match PutFrom(fs, k, old(Done()), out.Length)
        case Written(payload) => status == Ok && Done() == payload
        case Failed(e) => status == e && e != Ok
    {
      hide FieldBytes, FieldStatus, IsText, PutFrom;
      ghost var spec, j := PutFrom(fs, k, Done(), out.Length), k;
      status := Ok;
      var i := 0;
      while i < |caps|
        invariant Valid() && 0 <= i <= |caps| && status == Ok && j == k + i
        invariant spec == PutFrom(fs, j, Done(), out.Length)
      {
        assert fs[j] == Text(caps[i], MAX_TEXT);
        NextField(fs, j, Done(), out.Length);
        status := PutText(caps[i], MAX_TEXT);
        if status != Ok {
          return;
        }
        i, j := i + 1, j + 1;
      }
      AllFields(fs, Done(), out.Length);
    }

    /** aivm_remote_encode_deny and aivm_remote_encode_error */
    method EncodeNotice(id: nat, m: Message) returns (status: Status)
      requires Valid() && Done() == [] && (m.Deny? || m.Error?) && IsMessage(m)
      modifies this`index, out
      ensures Made(status, Encode(id, m, out.Length))
    {
      hide FieldBytes, FieldStatus, WordBytes, PutFrom;
      ghost var fs := Fields(m);
      AllFields(fs, Done(), out.Length);
      NextField(fs, 0, Done(), out.Length);
      status := PutRaw(WordBytes(m.code));
      if status != Ok {
        return;
      }
      NextField(fs, 1, Done(), out.Length);
      status := PutText(m.text, MAX_ERROR_TEXT);
      if status == Ok {
        AllFields(fs, Done(), out.Length);
        status := Finish(TypeByte(m), id);
      }
    }

    /** aivm_remote_encode_call */
    method EncodeCall(id: nat, m: Message) returns (status: Status)
      requires Valid() && Done() == [] && m.Call? && IsMessage(m)
      modifies this`index, out
      ensures Made(status, Encode(id, m, out.Length))
    {
      hide FieldBytes, FieldStatus, WordBytes, LongBytes, PutFrom;
      ghost var fs := Fields(m);
      AllFields(fs, Done(), out.Length);
      NextField(fs, 0, Done(), out.Length);
      status := PutText(m.cap, MAX_TEXT);
      if status != Ok {
        return;
      }
      NextField(fs, 1, Done(), out.Length);
      status := PutText(m.op, MAX_TEXT);
      if status != Ok {
        return;
      }
      NextField(fs, 2, Done(), out.Length);
      status := PutRaw(LongBytes(m.value));
      if status == Ok {
        AllFields(fs, Done(), out.Length);
        status := Finish(TypeByte(m), id);
      }
    }

    /** aivm_remote_encode_result */
    method EncodeResult(id: nat, m: Message) returns (status: Status)
      requires Valid() && Done() == [] && m.Result? && IsMessage(m)
      modifies this`index, out
      ensures Made(status, Encode(id, m, out.Length))
    {
      hide FieldBytes, FieldStatus, WordBytes, LongBytes, PutFrom;
      ghost var fs := Fields(m);
      AllFields(fs, Done(), out.Length);
      NextField(fs, 0, Done(), out.Length);
      status := PutRaw(LongBytes(m.value));
      if status == Ok {
        AllFields(fs, Done(), out.Length);
        status := Finish(TypeByte(m), id);
      }
    }

    /** The encoder for the message at hand. */
    method EncodeMessage(id: nat, m: Message) returns (status: Status)
      requires Valid() && Done() == [] && IsMessage(m)
      modifies this`index, out
      ensures Made(status, Encode(id, m, out.Length))
    {
      hide Encode, Fields;
      match m
      case Hello(_, _, _) => status := EncodeHello(id, m);
      case Welcome(_, _) => status := EncodeWelcome(id, m);
      case Call(_, _, _) => status := EncodeCall(id, m);
      case Result(_) => status := EncodeResult(id, m);
      case _ => status := EncodeNotice(id, m);
    }
  }

  class FrameReader {
    const bytes: seq<byte>
    var index: nat

    constructor (bytes: seq<byte>)
      ensures this.bytes == bytes && index == HEADER_SIZE
    {
      this.bytes := bytes;
      index := HEADER_SIZE;
    }

    /** read_string */
    method ReadString(max: nat) returns (status: Status, s: string)
      modifies this`index
      ensures match ReadText(bytes, old(index), max)
        case GotText(t, next) => status == Ok && s == t && index == next
        case BadText(e) => status == e && e != Ok
    {
      if index + 2 > |bytes| {
        return Short, "";
      }
      var n := ReadHalf(bytes, index);
      if n > max {
        return Overflow, "";
      }
      if index + 2 + n > |bytes| {
        return Short, "";
      }
      s := CopyText(index + 2, n);
      index := index + 2 + n;
      status := Ok;
    }

    /** The C string that `n` copied bytes and a terminator make. */
    method CopyText(from: nat, n: nat) returns (s: string)
      requires from + n <= |bytes|
      ensures s == CString(bytes[from..from + n])
    {
      s := [];
      var i := 0;
      while i < n && bytes[from + i] != 0
        invariant 0 <= i <= n
        invariant CString(bytes[from..from + n]) == s + CString(bytes[from + i..from + n])
      {
        assert bytes[from + i..from + n][1..] == bytes[from + i + 1..from + n];
        s := s + [bytes[from + i] as char];
        i := i + 1;
      }
      assert CString(bytes[from + i..from + n]) == [];
    }

    /** read_header and check_type */
    method ReadHeader(expected: byte) returns (status: Status)
      ensures status == CheckHeader(bytes, expected)
      ensures status == Ok <==> IsFrame(bytes, expected)
    {
      HeaderExact(bytes, expected);
      if |bytes| < HEADER_SIZE {
        return Short;
      }
      if ReadWord(bytes, 5) + HEADER_SIZE != |bytes| {
        return Format;
      }
      status := if bytes[0] != expected then WrongType else Ok;
    }

    /** The version, the count, the list, and the end of the frame. */
    method ReadCapList() returns (status: Status, proto: nat, caps: seq<string>)
      modifies this`index
      ensures match DecodeCaps(bytes, old(index))
        case GotList(p, list) => status == Ok && proto == p && caps == list
        case BadList(e) => status == e && e != Ok
    {
      hide ReadText, ReadWord, ReadHalf;
      proto, caps := 0, [];
      if index + 6 > |bytes| {
        return Short, proto, caps;
      }
      proto := ReadHalf(bytes, index);
      var count := ReadWord(bytes, index + 2);
      if count > MAX_CAPS {
        return Overflow, proto, caps;
      }
      index := index + 6;
      ghost var spec := ReadCaps(bytes, index, count, []);
      var i := 0;
      while i < count
        invariant 0 <= i <= count && spec == ReadCaps(bytes, index, count - i, caps)
      {
        var s;
        status, s := ReadString(MAX_TEXT);
        if status != Ok {
          return;
        }
        caps := caps + [s];
        i := i + 1;
      }
      status := if index != |bytes| then Format else Ok;
    }

    ghost predicate Got(status: Status, id: nat, m: Message, spec: Decoded) {
      match spec
      case Received(i, n) => status == Ok && id == i && m == n
      case Refused(e) => status == e && e != Ok
    }

    /** aivm_remote_decode_hello */
    method ReadHello() returns (status: Status, id: nat, m: Message)
      requires index == HEADER_SIZE
      modifies this`index
      ensures Got(status, id, m, DecodeHello(bytes))
    {
      hide ReadText, ReadWord, DecodeCaps;
      id, m := 0, Result(0);
      status := ReadHeader(0x01);
      if status != Ok {
        return;
      }
      var name, proto, caps;
      status, name := ReadString(MAX_TEXT);
      if status != Ok {
        return;
      }
      status, proto, caps := ReadCapList();
      id, m := ReadWord(bytes, 1), Hello(name, proto, caps);
    }

    /** aivm_remote_decode_welcome */
    method ReadWelcome() returns (status: Status, id: nat, m: Message)
      requires index == HEADER_SIZE
      modifies this`index
      ensures Got(status, id, m, DecodeWelcome(bytes))
    {
      hide ReadText, ReadWord, DecodeCaps;
      id, m := 0, Result(0);
      status := ReadHeader(0x02);
      if status != Ok {
        return;
      }
      var proto, caps;
      status, proto, caps := ReadCapList();
      id, m := ReadWord(bytes, 1), Welcome(proto, caps);
    }

    /** aivm_remote_decode_deny and aivm_remote_decode_error */
    method ReadNotice(expected: byte) returns (status: Status, id: nat, m: Message)
      requires index == HEADER_SIZE
      modifies this`index
      ensures Got(status, id, m, DecodeNotice(bytes, expected))
    {
      hide ReadText, ReadWord;
      id, m := 0, Result(0);
      status := ReadHeader(expected);
      if status != Ok {
        return;
      }
      if index + 4 > |bytes| {
        return Short, id, m;
      }
      var code := ReadWord(bytes, index);
      index := index + 4;
      var text;
      status, text := ReadString(MAX_ERROR_TEXT);
      if status != Ok {
        return;
      }
      status := if index != |bytes| then Format else Ok;
      id, m := ReadWord(bytes, 1), if expected == 0x03 then Deny(code, text) else Error(code, text);
    }

    /** aivm_remote_decode_call */
    method ReadCall() returns (status: Status, id: nat, m: Message)
      requires index == HEADER_SIZE
      modifies this`index
      ensures Got(status, id, m, DecodeCall(bytes))
    {
      hide ReadText, ReadWord, ReadLong;
      id, m := 0, Result(0);
      status := ReadHeader(0x10);
      if status != Ok {
        return;
      }
      var cap, op;
      status, cap := ReadString(MAX_TEXT);
      if status != Ok {
        return;
      }
      status, op := ReadString(MAX_TEXT);
      if status != Ok {
        return;
      }
      if index + 8 != |bytes| {
        return Format, id, m;
      }
      id, m := ReadWord(bytes, 1), Call(cap, op, ReadLong(bytes, index));
    }

    /** aivm_remote_decode_result */
    method ReadResult() returns (status: Status, id: nat, m: Message)
      requires index == HEADER_SIZE
      modifies this`index
      ensures Got(status, id, m, DecodeResult(bytes))
    {
      id, m := 0, Result(0);
      status := ReadHeader(0x11);
      if status != Ok {
        return;
      }
      if index + 8 != |bytes| {
        return Format, id, m;
      }
      id, m := ReadWord(bytes, 1), Result(ReadLong(bytes, index));
    }
  }
}
