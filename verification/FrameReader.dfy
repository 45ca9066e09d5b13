/**
  The firmware's reader of server/main/tcp.c: a blocking loop over `recv` that fills a two-byte
  header and then a body of the announced length, and its agreement with the daemon's codec.
 */
module FrameReader {
  import opened Bytes
  import opened Streams
  import opened DeviceCodec

  type Chunk = s: seq<byte> | |s| <= 255

  /** A `Message` of server/main/message.h: the kind and the `len` body bytes that count. */
  datatype Frame = Frame(kind: byte, body: Chunk)

  function FrameBytes(f: Frame): (s: seq<byte>)
    ensures |s| == 2 + |f.body|
  {
    [f.kind, |f.body|] + f.body
  }

  /** What the reader makes of a stream: it trusts the announced length, whatever the kind. */
  function ReadFrame(s: seq<byte>): Outcome<Frame> {
    if |s| < 2 || |s| < 2 + s[1] as int then More
    else Item(Frame(s[0], s[2..2 + s[1]]), 2 + s[1] as int)
  }

  lemma ReadFrameIsLawful()
    ensures Lawful(ReadFrame)
  {
    forall s: seq<byte>, t: seq<byte> | !ReadFrame(s).More?
      ensures ReadFrame(s + t) == ReadFrame(s)
    {
      assert (s + t)[2..2 + s[1]] == s[2..2 + s[1]];
    }
  }

  lemma ReadFrameInvertsFrameBytes(f: Frame, t: seq<byte>)
    ensures ReadFrame(FrameBytes(f) + t) == Item(f, |FrameBytes(f)|)
  {
    var s := FrameBytes(f) + t;
    assert s[0] == f.kind && s[1] == |f.body|;
    assert s[2..2 + |f.body|] == f.body;
  }

  /** Whatever is read is, byte for byte, the frame returned. */
  lemma FrameBytesInvertsReadFrame(s: seq<byte>)
    requires ReadFrame(s).Item?
    ensures s[..ReadFrame(s).used] == FrameBytes(ReadFrame(s).msg)
  {
    var n := ReadFrame(s).used;
    assert s[..n] == [s[0], s[1]] + s[2..n];
  }

  lemma StrictPrefixOfFrameAsksForMore(f: Frame, k: nat)
    requires k < |FrameBytes(f)|
    ensures ReadFrame(FrameBytes(f)[..k]).More?
  {
    ReadFrameIsLawful();
    ReadFrameInvertsFrameBytes(f, []);
    assert FrameBytes(f) + [] == FrameBytes(f);
    StrictPrefixAsksForMore(ReadFrame, FrameBytes(f), k);
  }

  /** The frame a device message travels in. */
  function FrameOf(m: DeviceMessage): Frame {
    Frame(Kind(m), Payload(m))
  }

  lemma EncodeIsFrameBytes(m: DeviceMessage)
    ensures Encode(m) == FrameBytes(FrameOf(m))
  {
  }

  function FramesOf(ms: seq<DeviceMessage>): seq<Frame> {
    seq(|ms|, i requires 0 <= i < |ms| => FrameOf(ms[i]))
  }

  /** The daemon's encoder writes the frames of the messages, one after the other. */
  lemma {:induction false} EncodeAllIsFrames(ms: seq<DeviceMessage>)
    ensures EncodeAll(Encode, ms) == EncodeAll(FrameBytes, FramesOf(ms))
  {
    if ms != [] {
      EncodeAllIsFrames(ms[1..]);
      EncodeIsFrameBytes(ms[0]);
      assert FramesOf(ms)[1..] == FramesOf(ms[1..]);
    }
  }

  /**
    Cross-language agreement: on every stream of encoded messages with an unfinished tail, the
    firmware's reader takes the same bytes as the daemon's decoder and recovers kind and body.
   */
  lemma ReaderAgreesWithEncoder(ms: seq<DeviceMessage>, tail: seq<byte>)
    requires ReadFrame(tail).More?
    ensures Lawful(ReadFrame)
    ensures Drain(ReadFrame, EncodeAll(Encode, ms) + tail) == Drained(FramesOf(ms), false, tail)
  {
    ReadFrameIsLawful();
    assert Recovers(ReadFrame, FrameBytes, f => true) by {
      forall f, t {
        ReadFrameInvertsFrameBytes(f, t);
      }
    }
    EncodeAllIsFrames(ms);
    DrainRecovers(ReadFrame, FrameBytes, f => true, FramesOf(ms), tail);
  }

  /**
    On arbitrary bytes the two readers part exactly when the announced length is wrong for a kind
    that fixes it: then the daemon consumes the fixed size and the firmware the announced one.
   */
  lemma ReadersAgreeIffLengthRight(s: seq<byte>)
    requires Decode(s).Item?
    ensures ReadFrame(s).Item?
    ensures ReadFrame(s).used == Decode(s).used <==>
            s[0] == 1 || Some(s[1] as nat) == FixedSize(s[0])
    ensures ReadFrame(s) == Item(FrameOf(Decode(s).msg), Decode(s).used) <==>
            s[0] == 1 || Some(s[1] as nat) == FixedSize(s[0])
  {
    EncodeInvertsDecodeIffLengthRight(s);
    var m, n := Decode(s).msg, Decode(s).used;
    if s[..n] == Encode(m) {
      EncodeIsFrameBytes(m);
      ReadFrameInvertsFrameBytes(FrameOf(m), s[n..]);
      assert FrameBytes(FrameOf(m)) + s[n..] == s;
    }
  }

  /** `ConfigMessage` laid over a frame body: the fields as `apply_config` reads them. */
  datatype ConfigFields = ConfigFields(baudrate: u32, dataBits: byte, stopBits: byte, parity: byte, hwFlowCtl: byte)

  function ConfigFieldsOf(body: seq<byte>): ConfigFields
    requires |body| == 8
  {
    ConfigFields(U32At(body, 0), body[4], body[5], body[6], body[7])
  }

  /** The packed struct with its big-endian baud rate recovers the fields the daemon sent. */
  lemma ConfigFieldsAgree(m: DeviceMessage)
    requires m.Config?
    ensures ConfigFieldsOf(FrameOf(m).body) ==
            ConfigFields(m.baudrate, m.dataBits, m.stopBits, m.parity, BoolByte(m.hwFlowCtl))
  {
    var body := FrameOf(m).body;
    assert body[..4] == BE32(m.baudrate);
    assert body[0] == body[..4][0] && body[1] == body[..4][1] && body[2] == body[..4][2] && body[3] == body[..4][3];
  }

  /** A reset request that announces one byte too many: the daemon leaves that byte, the firmware takes it. */
  lemma ReadersCanDisagree()
    ensures Decode([3, 2, 1, 9]) == Item(ControlReq(Reset), 3)
    ensures ReadFrame([3, 2, 1, 9]) == Item(Frame(3, [1, 9]), 4)
  {
    var s: seq<byte> := [3, 2, 1, 9];
    assert s[2..2 + s[1]] == [1, 9];
  }

  // ---------------------------------------------------------------- the blocking reader

  /**
    A connected socket. `incoming` are the bytes `recv` will still hand over before the session
    ends; how many come at a time is up to the network.
   */
  class Socket {
    var incoming: seq<byte>

    constructor (incoming: seq<byte>)
      ensures this.incoming == incoming
    {
      this.incoming := incoming;
    }

    /** `recv`: between 1 and `max` bytes, or none once the session has ended. */
    method Recv(max: nat) returns (got: seq<byte>)
      requires max > 0
      modifies this
      ensures |got| <= max && old(incoming) == got + incoming
      ensures got == [] <==> old(incoming) == []
    {
      if incoming == [] {
        return [];
      }
      var n :| 1 <= n <= max && n <= |incoming|;
      got := incoming[..n];
      incoming := incoming[n..];
    }
  }

  /** `read_all`: fill the first `size` places of `buf`, or fail having drained the session. */
  method ReadAll(buf: array<byte>, size: nat, sock: Socket) returns (ok: bool)
    requires size <= buf.Length
    modifies buf, sock
    ensures ok <==> size <= |old(sock.incoming)|
    ensures ok ==> buf[..size] == old(sock.incoming)[..size] && sock.incoming == old(sock.incoming)[size..]
    ensures ok ==> buf[size..] == old(buf[size..])
    ensures !ok ==> sock.incoming == []
  {
    var total := 0;
    while total < size
      invariant total <= size
      invariant buf[..total] + sock.incoming == old(sock.incoming)
      invariant forall k :: size <= k < buf.Length ==> buf[k] == old(buf[k])
    {
      var got := sock.Recv(size - total);
      if got == [] {
        return false;
      }
      ghost var before := buf[..total];
      forall i | 0 <= i < |got| {
        buf[total + i] := got[i];
      }
      assert buf[..total + |got|] == before + got;
      total := total + |got|;
    }
    return true;
  }

  /** The body array of a `Message` and its header. */
  class Message {
    var kind: byte
    var len: byte
    const body: array<byte>

    constructor ()
      ensures fresh(body) && body.Length == 255
    {
      kind, len := 0, 0;
      body := new byte[255](_ => 0);
    }

    function AsFrame(): Frame
      requires body.Length == 255
      reads this, body
    {
      Frame(kind, body[..len])
    }
  }

  /**
    `read_msg`: exactly the first frame of the session, however `recv` cut it up, or a failure
    when the session ends before the frame does.
   */
  method ReadMsg(sock: Socket, msg: Message) returns (ok: bool)
    requires msg.body.Length == 255
    modifies sock, msg, msg.body
    ensures match ReadFrame(old(sock.incoming))
            case Item(f, n) => ok && msg.AsFrame() == f && sock.incoming == old(sock.incoming)[n..]
            case _ => !ok && sock.incoming == []
  {
    var hdr := new byte[2](_ => 0);
    ghost var s := sock.incoming;
    ok := ReadAll(hdr, 2, sock);
    if !ok { return; }
    msg.kind, msg.len := hdr[0], hdr[1];
    assert hdr[..2][0] == s[0] && hdr[..2][1] == s[1];
    ok := ReadAll(msg.body, msg.len, sock);
    if ok {
      assert s[2..][..msg.len] == s[2..2 + msg.len];
      assert s[2..][msg.len..] == s[2 + msg.len as int..];
    }
  }

  /** A whole session of reads: the frames of the stream, in order, until it runs dry. */
  method ReadSession(sock: Socket) returns (frames: seq<Frame>)
    modifies sock
    ensures Lawful(ReadFrame) && frames == Drain(ReadFrame, old(sock.incoming)).msgs
    ensures sock.incoming == []
  {
    ReadFrameIsLawful();
    frames := [];
    ghost var s := sock.incoming;
    JoinNothing(Drain(ReadFrame, s));
    var ok := true;
    while ok
      invariant ok ==> Drain(ReadFrame, s) == Join(frames, Drain(ReadFrame, sock.incoming))
      invariant !ok ==> frames == Drain(ReadFrame, s).msgs && sock.incoming == []
      decreases ok, |sock.incoming|
    {
      var msg := new Message();
      ghost var left := sock.incoming;
      ok := ReadMsg(sock, msg);
      if ok {
        JoinAssociates(frames, [msg.AsFrame()], Drain(ReadFrame, sock.incoming));
        frames := frames + [msg.AsFrame()];
      } else {
        assert Drain(ReadFrame, left) == Drained([], false, left);
        assert frames + [] == frames;
      }
    }
  }
}
