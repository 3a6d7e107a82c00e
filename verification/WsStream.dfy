/** The bridge's conversation with one client: bytes arrive in pieces of any size, complete frames are taken
    off the front of the buffer and dispatched. */
module WsStream {
  import opened Values
  import opened WebSocket
  import opened RemoteSession

  const IO_BUFFER := 131072
  const FRAME_ROOM := MAX_PAYLOAD + 16

  /** `Closed(true)` after a close frame, `Closed(false)` after an error. */
  datatype State = Open | Closed(ok: bool)

  /** `frames` is every frame dispatched so far, whether anything came of it or not; `sent` is everything written
      to the client, frame by frame.  The socket takes `up` more frames, then writing fails. */
  datatype Client = Client(
    buffer: seq<byte>, session: Session, frames: seq<WsFrame>, sent: seq<seq<byte>>, up: nat, state: State)

  function Start(up: nat): Client {
    Client([], FRESH, [], [], up, Open)
  }

  /** send_all on a frame, if it could be built. */
  function SendTo(c: Client, s: Sent): Client {
    if s.Sent? && c.up > 0 then c.(sent := c.sent + [s.b], up := c.up - 1) else c
  }

  /** One complete frame. */
  function Dispatch(config: Config, c: Client, frame: WsFrame): (d: Client)
    requires IsConfig(config)
    ensures d.buffer == c.buffer && d.frames == c.frames + [frame]
  {
    Handle(config, c, frame).(frames := c.frames + [frame])
  }

  /** What comes of a frame, by its opcode: close, ping, binary; any other frame is ignored.  Only a binary reply
      that cannot be written ends the conversation. */
  function Handle(config: Config, c: Client, frame: WsFrame): (d: Client)
    requires IsConfig(config)
    ensures d.buffer == c.buffer && d.frames == c.frames
  {
    if frame.opcode == 0x8 then SendTo(c, EncodeServer(0x8, [], FRAME_ROOM)).(state := Closed(true))
    else if frame.opcode == 0x9 then SendTo(c, EncodeServer(0xA, frame.payload, FRAME_ROOM))
    else if frame.opcode != 0x2 then c
    else
      var turn := Process(config, c.session, frame.payload, MAX_PAYLOAD);
      var d := c.(session := turn.s);
      if turn.status != Fine then d.(state := Closed(false))
      else
        var reply := EncodeServer(0x2, turn.out, FRAME_ROOM);
        if reply.NotSent? || d.up == 0 then d.(state := Closed(false)) else SendTo(d, reply)
  }

  /** Take frames off the front while there are complete ones. */
  function Drain(config: Config, c: Client): (d: Client)
    requires IsConfig(config)
    decreases |c.buffer|
  {
    if !c.state.Open? then c
    else
      match Decode(c.buffer)
      case Complete(frame, consumed) => Drain(config, Dispatch(config, c.(buffer := c.buffer[consumed..]), frame))
      case Incomplete => c
      case Invalid => c
  }

  /** One recv: append, drain, give up on a full buffer. */
  function Receive(config: Config, c: Client, chunk: seq<byte>): Client
    requires IsConfig(config)
  {
    if !c.state.Open? then c
    else
      var d := Drain(config, c.(buffer := c.buffer + chunk));
      if d.state.Open? && |d.buffer| == IO_BUFFER then d.(state := Closed(false)) else d
  }

  function Serve(config: Config, up: nat, chunks: seq<seq<byte>>): Client
    requires IsConfig(config)
    decreases |chunks|
  {
    if chunks == [] then Start(up)
    else Receive(config, Serve(config, up, chunks[..|chunks| - 1]), chunks[|chunks| - 1])
  }

  function Concat(chunks: seq<seq<byte>>): seq<byte>
    decreases |chunks|
  {
    if chunks == [] then [] else Concat(chunks[..|chunks| - 1]) + chunks[|chunks| - 1]
  }

  /** The whole stream at once, with room for all of it. */
  function Whole(config: Config, up: nat, stream: seq<byte>): Client
    requires IsConfig(config)
  {
    Drain(config, Start(up).(buffer := stream))
  }

  // ---------- draining ----------

  lemma {:induction false} DrainStep(config: Config, c: Client)
    requires IsConfig(config) && c.state.Open? && Decode(c.buffer).Complete?
    ensures Drain(config, c) ==
      Drain(config, Dispatch(config, c.(buffer := c.buffer[Decode(c.buffer).consumed..]), Decode(c.buffer).frame))
  {
    hide Dispatch, Decode;
  }

  lemma {:induction false} DrainStuck(config: Config, c: Client)
    requires IsConfig(config) && (!c.state.Open? || !Decode(c.buffer).Complete?)
    ensures Drain(config, c) == c
  {
    hide Dispatch, Decode;
  }

  /** A frame is handled the same with anything behind it. */
  lemma {:induction false} DispatchBuffer(config: Config, c: Client, frame: WsFrame, buffer: seq<byte>)
    requires IsConfig(config)
    ensures Dispatch(config, c.(buffer := buffer), frame) == Dispatch(config, c, frame).(buffer := buffer)
  {
    hide EncodeServer, Process;
  }

  /** Draining now and again after more arrived is draining once at the end. */
  lemma {:induction false} DrainAppend(config: Config, c: Client, more: seq<byte>)
    requires IsConfig(config)
    ensures var d := Drain(config, c); var e := Drain(config, c.(buffer := c.buffer + more));
      if d.state.Open? then e == Drain(config, d.(buffer := d.buffer + more))
      else e == d.(buffer := e.buffer)
    decreases |c.buffer|
  {
    hide Drain, Dispatch, Decode;
    var longer := c.(buffer := c.buffer + more);
    if !c.state.Open? {
      DrainStuck(config, c);
      DrainStuck(config, longer);
    } else if Decode(c.buffer).Complete? {
      var k, frame := Decode(c.buffer).consumed, Decode(c.buffer).frame;
      DecodeStable(c.buffer, more);
      assert longer.buffer[k..] == c.buffer[k..] + more;
      DrainStep(config, c);
      DrainStep(config, longer);
      var rest := c.(buffer := c.buffer[k..]);
      DispatchBuffer(config, rest, frame, c.buffer[k..] + more);
      DrainAppend(config, Dispatch(config, rest, frame), more);
    } else {
      DrainStuck(config, c);
    }
  }

  /** What is left after draining has no complete frame in front. */
  lemma {:induction false} DrainLeft(config: Config, c: Client)
    requires IsConfig(config)
    ensures Drain(config, c).state.Open? ==> !Decode(Drain(config, c).buffer).Complete?
    ensures |Drain(config, c).buffer| <= |c.buffer|
    decreases |c.buffer|
  {
    hide Drain, Dispatch, Decode;
    if c.state.Open? && Decode(c.buffer).Complete? {
      DrainStep(config, c);
      DrainLeft(config, Dispatch(config, c.(buffer := c.buffer[Decode(c.buffer).consumed..]), Decode(c.buffer).frame));
    } else {
      DrainStuck(config, c);
    }
  }

  /** The full-buffer abort only ever hits a head that no further byte can make valid. */
  lemma {:induction false} FullMeansInvalid(config: Config, c: Client)
    requires IsConfig(config) && Drain(config, c).state.Open? && |Drain(config, c).buffer| >= MAX_FRAME
    ensures Decode(Drain(config, c).buffer).Invalid?
  {
    hide Drain, Decode;
    DrainLeft(config, c);
    DecodeDecided(Drain(config, c).buffer);
  }

  /** Nothing is dispatched behind an invalid head. */
  lemma {:induction false} InvalidForGood(config: Config, c: Client, more: seq<byte>)
    requires IsConfig(config) && Decode(c.buffer).Invalid?
    ensures Drain(config, c.(buffer := c.buffer + more)) == c.(buffer := c.buffer + more)
  {
    hide Drain, Decode;
    DecodeStable(c.buffer, more);
    DrainStuck(config, c.(buffer := c.buffer + more));
  }

  // ---------- what a client's frames do ----------

  /** The conversation behind a frame: taken off the buffer and on record. */
  function Behind(c: Client, frame: WsFrame, rest: seq<byte>): Client {
    c.(buffer := rest, frames := c.frames + [frame])
  }

  /** One more frame was written. */
  function Wrote(c: Client, b: seq<byte>): Client
    requires c.up > 0
  {
    c.(sent := c.sent + [b], up := c.up - 1)
  }

  /** The bytes of one frame of the client, in front of the rest. */
  ghost predicate Arrives(config: Config, c: Client, frame: WsFrame, key: seq<byte>, rest: seq<byte>) {
    && IsConfig(config) && c.state.Open? && frame.opcode < 0x10 && |key| == 4 && |frame.payload| <= MAX_PAYLOAD
    && c.buffer == ClientFrame(frame, key) + rest
  }

  lemma {:induction false} FrameTaken(config: Config, c: Client, frame: WsFrame, key: seq<byte>, rest: seq<byte>)
    requires Arrives(config, c, frame, key, rest)
    ensures Drain(config, c) == Drain(config, Dispatch(config, c.(buffer := rest), frame))
  {
    hide Drain, Dispatch, Decode, ClientFrame;
    var b := ClientFrame(frame, key);
    ClientRound(frame, key);
    DecodeStable(b, rest);
    DrainStep(config, c);
    assert (b + rest)[|b|..] == rest;
  }

  /** A frame the bridge can write. */
  lemma {:induction false} Writable(opcode: nat, payload: seq<byte>)
    requires opcode < 0x10 && |payload| < 0x1_0000
    ensures var e := EncodeServer(opcode, payload, FRAME_ROOM); e.Sent? && ReadsAs(e.b, opcode, payload)
  {
    hide BigEndian, Digits, ReadsAs;
    ServerRound(opcode, payload, FRAME_ROOM);
  }

  /** A ping is answered by one pong with its payload, if anything can be written; nothing else changes, and the
      conversation goes on. */
  lemma {:induction false} PingLaw(config: Config, c: Client, frame: WsFrame, key: seq<byte>, rest: seq<byte>)
    returns (pong: seq<byte>)
    requires Arrives(config, c, frame, key, rest) && frame.opcode == 0x9 && |frame.payload| < 0x1_0000
    ensures ReadsAs(pong, 0xA, frame.payload)
    ensures var d := Behind(c, frame, rest); Drain(config, c) == Drain(config, if c.up > 0 then Wrote(d, pong) else d)
  {
    hide Drain, ReadsAs, EncodeServer;
    FrameTaken(config, c, frame, key, rest);
    Writable(0xA, frame.payload);
    pong := EncodeServer(0xA, frame.payload, FRAME_ROOM).b;
  }

  /** A close is answered by an empty close, if anything can be written, and ends the conversation: what is behind
      it stays in the buffer. */
  lemma {:induction false} CloseLaw(config: Config, c: Client, frame: WsFrame, key: seq<byte>, rest: seq<byte>)
    returns (last: seq<byte>)
    requires Arrives(config, c, frame, key, rest) && frame.opcode == 0x8
    ensures ReadsAs(last, 0x8, [])
    ensures var d := Behind(c, frame, rest).(state := Closed(true));
      Drain(config, c) == if c.up > 0 then Wrote(d, last) else d
  {
    hide ReadsAs, EncodeServer;
    hide Drain;
    FrameTaken(config, c, frame, key, rest);
    Writable(0x8, []);
    last := EncodeServer(0x8, [], FRAME_ROOM).b;
    DrainStuck(config, Dispatch(config, c.(buffer := rest), frame));
  }

  /** A binary frame goes to the session.  Its reply is written as one binary frame; an error, or a reply that
      cannot be written, ends the conversation. */
  lemma {:induction false} BinaryLaw(config: Config, c: Client, frame: WsFrame, key: seq<byte>, rest: seq<byte>)
    returns (reply: seq<byte>)
    requires Arrives(config, c, frame, key, rest) && frame.opcode == 0x2
    requires |Process(config, c.session, frame.payload, MAX_PAYLOAD).out| < 0x1_0000
    ensures var turn := Process(config, c.session, frame.payload, MAX_PAYLOAD);
      var d := Behind(c, frame, rest).(session := turn.s);
      && ReadsAs(reply, 0x2, turn.out)
      && Drain(config, c) ==
           if turn.status == Fine && c.up > 0 then Drain(config, Wrote(d, reply)) else d.(state := Closed(false))
  {
    hide Drain, ReadsAs, EncodeServer, Process;
    FrameTaken(config, c, frame, key, rest);
    var out := Process(config, c.session, frame.payload, MAX_PAYLOAD).out;
    Writable(0x2, out);
    reply := EncodeServer(0x2, out, FRAME_ROOM).b;
    var d := Dispatch(config, c.(buffer := rest), frame);
    if d.state.Closed? {
      DrainStuck(config, d);
    }
  }

  /** Any other frame is passed over. */
  lemma {:induction false} OtherLaw(config: Config, c: Client, frame: WsFrame, key: seq<byte>, rest: seq<byte>)
    requires Arrives(config, c, frame, key, rest) && frame.opcode !in {0x2, 0x8, 0x9}
    ensures Drain(config, c) == Drain(config, Behind(c, frame, rest))
  {
    hide Drain;
    FrameTaken(config, c, frame, key, rest);
  }

  /** A conversation that is still open has room for more; one whose buffer is full of bytes behind an invalid head is
      given up, and nothing else about it changes. */
  lemma {:induction false} FullCloses(config: Config, c: Client, chunk: seq<byte>)
    requires IsConfig(config) && c.state.Open? && |c.buffer| + |chunk| <= 131072
    ensures var d := Receive(config, c, chunk);
      && (d.state.Open? ==> |d.buffer| < 131072)
      && (|c.buffer| + |chunk| == 131072 && Decode(c.buffer + chunk).Invalid? ==>
            d == c.(buffer := c.buffer + chunk, state := Closed(false)))
  {
    hide Drain, Decode;
    var e := c.(buffer := c.buffer + chunk);
    DrainLeft(config, e);
    if Decode(e.buffer).Invalid? {
      DrainStuck(config, e);
    }
  }

  // ---------- independence of the split ----------

  /** The served client against the whole stream: same frames dispatched, same session and same frames sent; the
      same state too, unless a full buffer ended the conversation at an invalid head. */
  ghost predicate Agree(c: Client, w: Client) {
    && c.frames == w.frames && c.session == w.session && c.sent == w.sent && c.up == w.up
    && match c.state
       case Open => w == c
       case Closed(_) => w.state == c.state || CutShort(c, w)
  }

  /** The buffer ran full at an invalid head, with the rest of the stream still to come. */
  ghost predicate CutShort(c: Client, w: Client) {
    && c.state == Closed(false) && w.state.Open? && Decode(c.buffer).Invalid?
    && |c.buffer| <= |w.buffer| && w.buffer[..|c.buffer|] == c.buffer
  }

  /** However the stream was cut into pieces, the frames dispatched, the replies and the session are those of
      the whole stream; only a full buffer behind an invalid head ends a conversation early. */
  lemma {:induction false} SplitIndependent(config: Config, up: nat, chunks: seq<seq<byte>>)
    requires IsConfig(config)
    ensures Agree(Serve(config, up, chunks), Whole(config, up, Concat(chunks)))
    decreases |chunks|
  {
    hide Drain, Dispatch, Decode;
    if chunks == [] {
      ShortBuffer();
      DrainStuck(config, Start(up));
    } else {
      var before, last := chunks[..|chunks| - 1], chunks[|chunks| - 1];
      SplitIndependent(config, up, before);
      AgreeReceive(config, up, Serve(config, up, before), Concat(before), last);
    }
  }

  lemma {:induction false} ShortBuffer()
    ensures !Decode([]).Complete?
  {
  }

  lemma {:induction false} Rejoin(a: seq<byte>, b: seq<byte>, more: seq<byte>)
    requires |a| <= |b| && b[..|a|] == a
    ensures b + more == a + (b[|a|..] + more) && (b + more)[..|a|] == a
  {
    assert a + b[|a|..] == b;
  }

  lemma {:induction false} AgreeReceive(config: Config, up: nat, c: Client, stream: seq<byte>, chunk: seq<byte>)
    requires IsConfig(config) && Agree(c, Whole(config, up, stream))
    ensures Agree(Receive(config, c, chunk), Whole(config, up, stream + chunk))
  {
    hide Drain, Dispatch, Decode;
    var w, start := Whole(config, up, stream), Start(up).(buffer := stream);
    assert Start(up).(buffer := stream + chunk) == start.(buffer := start.buffer + chunk);
    DrainAppend(config, start, chunk);
    if c.state.Open? {
      var d := Drain(config, c.(buffer := c.buffer + chunk));
      if d.state.Open? && |d.buffer| == IO_BUFFER {
        FullMeansInvalid(config, c.(buffer := c.buffer + chunk));
      }
    } else if w.state.Open? {
      var rest := w.buffer[|c.buffer|..];
      Rejoin(c.buffer, w.buffer, chunk);
      InvalidForGood(config, w.(buffer := c.buffer), rest + chunk);
      assert w.(buffer := c.buffer).(buffer := c.buffer + (rest + chunk)) == w.(buffer := w.buffer + chunk);
    }
  }

  // ---------- the bridge's buffer ----------

  class Bridge {
    const recv: array<byte>
    var used: nat
    const session: ServerSession
    ghost var frames: seq<WsFrame>
    var sent: seq<seq<byte>>
    /** How many more frames the socket takes. */
    var up: nat
    var state: State

    ghost predicate Valid()
      reads this`used
    {
      recv.Length == IO_BUFFER && used <= IO_BUFFER
    }

    ghost function Abs(): Client
      requires Valid()
      reads this, recv, session
    {
      Client(recv[..used], session.Abs(), frames, sent, up, state)
    }

    constructor (up: nat)
      ensures Valid() && fresh(recv) && fresh(session) && Abs() == Start(up)
    {
      recv := new byte[IO_BUFFER](_ => 0);
      session := new ServerSession();
      used, frames, sent, state := 0, [], [], Open;
      this.up := up;
    }

    /** aivm_ws_decode_client_frame on the front of the buffer. */
    method DecodeFront() returns (ok: bool, frame: WsFrame, consumed: nat)
      requires Valid()
      ensures ok <==> Decode(recv[..used]).Complete?
      ensures ok ==> Decode(recv[..used]) == Complete(frame, consumed)
    {
      hide BigEndian, Xor;
      frame, consumed := WsFrame(false, 0, []), 0;
      if used < 2 {
        return false, frame, 0;
      }
      var short := recv[1] as nat % 0x80;
      if recv[1] < 0x80 {
        return false, frame, 0;
      }
      var index, length := 2 + LengthBytes(short), short;
      if index > used {
        return false, frame, 0;
      }
      if short >= 126 {
        length := ReadBigEndian(2, index);
        assert recv[..used][2..index] == recv[2..index];
      }
      if length > MAX_PAYLOAD || index + 4 + length > used {
        return false, frame, 0;
      }
      var payload := Unmask(index + 4, length, index);
      assert recv[..used][index..index + 4] == recv[index..index + 4];
      assert recv[..used][index + 4..index + 4 + length] == recv[index + 4..index + 4 + length];
      return true, WsFrame(recv[0] >= 0x80, recv[0] as nat % 0x10, payload), index + 4 + length;
    }

    method ReadBigEndian(from: nat, to: nat) returns (n: nat)
      requires from <= to <= recv.Length
      ensures n == BigEndian(recv[from..to])
    {
      n := 0;
      var i := from;
      while i < to
        invariant from <= i <= to && n == BigEndian(recv[from..i])
      {
        assert recv[from..i + 1][..i - from] == recv[from..i];
        n := n * 0x100 + recv[i] as nat;
        i := i + 1;
      }
    }

    /** The payload at `at`, unmasked with the four bytes at `key`. */
    method Unmask(at: nat, length: nat, key: nat) returns (payload: seq<byte>)
      requires at + length <= recv.Length && key + 4 <= recv.Length
      ensures payload == Mask(recv[at..at + length], recv[key..key + 4])
    {
      hide Xor;
      payload := [];
      var i := 0;
      while i < length
        invariant 0 <= i <= length && payload == Mask(recv[at..at + i], recv[key..key + 4])
      {
        payload := payload + [Xor(recv[at + i], recv[key + i % 4])];
        assert recv[at..at + i + 1] == recv[at..at + i] + [recv[at + i]];
        i := i + 1;
      }
    }

    /** memmove: drop the first `n` bytes. */
    method Shift(n: nat)
      requires Valid() && n <= used
      modifies recv, this`used
      ensures Valid() && recv[..used] == old(recv[..used])[n..]
    {
      var i := 0;
      while i < used - n
        invariant 0 <= i <= used - n && used == old(used)
        invariant forall j :: 0 <= j < i ==> recv[j] == old(recv[j + n])
        invariant forall j :: i <= j < used ==> recv[j] == old(recv[j])
      {
        recv[i] := recv[i + n];
        i := i + 1;
      }
      used := used - n;
    }

    /** send_all on a frame, if it could be built. */
    method Write(s: Sent) returns (ok: bool)
      modifies this`sent, this`up
      ensures ok <==> s.Sent? && old(up) > 0
      ensures ok ==> sent == old(sent) + [s.b] && up == old(up) - 1
      ensures !ok ==> sent == old(sent) && up == old(up)
    {
      ok := s.Sent? && up > 0;
      if ok {
        sent, up := sent + [s.b], up - 1;
      }
    }

    method HandleFrame(config: Config, frame: WsFrame)
      requires Valid() && IsConfig(config)
      modifies this`frames, this`sent, this`up, this`state, session
      ensures Valid() && Abs() == Dispatch(config, old(Abs()), frame)
    {
      hide Process, EncodeServer;
      frames := frames + [frame];
      if frame.opcode == 0x8 {
        var _ := Write(EncodeServer(0x8, [], FRAME_ROOM));
        state := Closed(true);
      } else if frame.opcode == 0x9 {
        var _ := Write(EncodeServer(0xA, frame.payload, FRAME_ROOM));
      } else if frame.opcode == 0x2 {
        var status, out := session.ProcessFrame(config, frame.payload, MAX_PAYLOAD);
        if status != Fine {
          state := Closed(false);
          return;
        }
        var written := Write(EncodeServer(0x2, out, FRAME_ROOM));
        if !written {
          state := Closed(false);
        }
      }
    }

    /** The inner loop: decode, shift, dispatch. */
    method DrainBuffer(config: Config)
      requires Valid() && IsConfig(config)
      modifies this`used, this`frames, this`sent, this`up, this`state, recv, session
      ensures Valid() && Abs() == Drain(config, old(Abs()))
    {
      hide Drain, Decode, Dispatch;
      while state == Open
        invariant Valid() && Drain(config, Abs()) == Drain(config, old(Abs()))
        decreases used, if state == Open then 1 else 0
      {
        ghost var c := Abs();
        var ok, frame, consumed := DecodeFront();
        if !ok {
          DrainStuck(config, c);
          return;
        }
        DrainStep(config, c);
        ConsumedSome(c.buffer);
        Shift(consumed);
        HandleFrame(config, frame);
      }
      DrainStuck(config, Abs());
    }

    static lemma {:induction false} ConsumedSome(b: seq<byte>)
      ensures Decode(b).Complete? ==> 1 <= Decode(b).consumed <= |b|
    {
    }

    /** The bytes of one recv, which never exceed the room left. */
    method Accept(config: Config, chunk: seq<byte>)
      requires Valid() && IsConfig(config) && state == Open && used + |chunk| <= IO_BUFFER
      modifies this`used, this`frames, this`sent, this`up, this`state, recv, session
      ensures Valid() && Abs() == Receive(config, old(Abs()), chunk)
    {
      hide Drain;
      var i := 0;
      while i < |chunk|
        invariant 0 <= i <= |chunk| && Valid() && used == old(used) && state == Open && sent == old(sent) && up == old(up)
        invariant frames == old(frames)
        invariant session.Abs() == old(session.Abs())
        invariant recv[..used + i] == old(recv[..used]) + chunk[..i]
      {
        recv[used + i] := chunk[i];
        assert recv[..used + i + 1] == recv[..used + i] + [chunk[i]];
        i := i + 1;
      }
      used := used + |chunk|;
      assert chunk[..i] == chunk;
      assert Abs() == old(Abs()).(buffer := old(Abs()).buffer + chunk);
      DrainBuffer(config);
      if state == Open && used == IO_BUFFER {
        state := Closed(false);
      }
    }
  }
}
