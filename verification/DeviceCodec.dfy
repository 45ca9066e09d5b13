/**
  The device protocol of common/src/msg.rs: messages, their wire form, and the incremental
  decoder, first as functions and then as the buffer-updating codec proved against them.
 */
module DeviceCodec {
  import opened Bytes
  import opened Buffers
  import opened Streams

  const MAX_MESSAGE_LEN := 255

  type Body = s: seq<byte> | |s| == 255 witness seq(255, _ => 0)

  datatype ControlRequest = Reset
  datatype ControlResponse = Done | NotSupported

  datatype DeviceMessage =
    | Data(size: byte, body: Body)
    | Config(baudrate: u32, dataBits: byte, stopBits: byte, parity: byte, hwFlowCtl: bool)
    | ControlReq(req: ControlRequest)
    | ControlRes(res: ControlResponse)

  function RequestCode(r: ControlRequest): byte { 1 }

  function RequestOf(code: byte): (r: Option<ControlRequest>)
    ensures r.Some? <==> code == RequestCode(Reset)
    ensures r.Some? ==> RequestCode(r.value) == code
  {
    if code == 1 then Some(Reset) else None
  }

  function ResponseCode(r: ControlResponse): byte {
    match r
    case Done => 1
    case NotSupported => 2
  }

  function ResponseOf(code: byte): (r: Option<ControlResponse>)
    ensures r.Some? <==> code == ResponseCode(Done) || code == ResponseCode(NotSupported)
    ensures r.Some? ==> ResponseCode(r.value) == code
  {
    if code == 1 then Some(Done) else if code == 2 then Some(NotSupported) else None
  }

  function Kind(m: DeviceMessage): byte {
    match m
    case Data(_, _) => 1
    case Config(_, _, _, _, _) => 2
    case ControlReq(_) => 3
    case ControlRes(_) => 4
  }

  function DataSize(m: DeviceMessage): nat {
    match m
    case Data(size, _) => size
    case Config(_, _, _, _, _) => 8
    case ControlReq(_) => 1
    case ControlRes(_) => 1
  }

  /** The bytes after the two-byte header. */
  function Payload(m: DeviceMessage): (p: seq<byte>)
    ensures |p| == DataSize(m) <= MAX_MESSAGE_LEN
  {
    match m
    case Data(size, body) => body[..size]
    case Config(baudrate, dataBits, stopBits, parity, hwFlowCtl) =>
      BE32(baudrate) + [dataBits, stopBits, parity, BoolByte(hwFlowCtl)]
    case ControlReq(req) => [RequestCode(req)]
    case ControlRes(res) => [ResponseCode(res)]
  }

  function Encode(m: DeviceMessage): (s: seq<byte>)
    ensures |s| == 2 + DataSize(m)
  {
    [Kind(m), DataSize(m)] + Payload(m)
  }

  /** `p` in a zeroed 255-byte array. */
  function Pad(p: seq<byte>): (b: Body)
    requires |p| <= MAX_MESSAGE_LEN
    ensures b[..|p|] == p && forall i :: |p| <= i < 255 ==> b[i] == 0
  {
    p + seq(MAX_MESSAGE_LEN - |p|, _ => 0)
  }

  /** The array of a data message is zero after its payload, as both constructors leave it. */
  predicate ZeroPadded(m: DeviceMessage) {
    m.Data? ==> m.body == Pad(m.body[..m.size])
  }

  /** The conversion from a byte slice, which keeps at most `MAX_MESSAGE_LEN` bytes. */
  function FromBytes(buf: seq<byte>): (m: DeviceMessage)
    ensures m.Data? && m.size <= |buf|
  {
    var len := if |buf| < MAX_MESSAGE_LEN then |buf| else MAX_MESSAGE_LEN;
    Data(len, Pad(buf[..len]))
  }

  /** The conversion loses nothing exactly when the slice fits one message. */
  lemma FromBytesTruncatesIffTooLong(buf: seq<byte>)
    ensures ZeroPadded(FromBytes(buf))
    ensures Payload(FromBytes(buf)) == buf <==> |buf| <= MAX_MESSAGE_LEN
  {
    if |buf| <= MAX_MESSAGE_LEN {
      assert buf[..|buf|] == buf;
    }
  }

  /** The incremental decoder: what it makes of the bytes buffered so far. */
  function Decode(s: seq<byte>): Outcome<DeviceMessage> {
    if |s| < 2 || |s| - 2 < s[1] then More
    else if s[0] == 1 then Item(Data(s[1], Pad(s[2..2 + s[1]])), 2 + s[1] as int)
    else if s[0] == 2 then
      if |s| < 10 then More
      else if s[9] > 1 then Bad
      else Item(Config(U32At(s, 2), s[6], s[7], s[8], s[9] != 0), 10)
    else if s[0] == 3 then
      if |s| < 3 then More
      else match RequestOf(s[2])
           case None => Bad
           case Some(req) => Item(ControlReq(req), 3)
    else if s[0] == 4 then
      if |s| < 3 then More
      else match ResponseOf(s[2])
           case None => Bad
           case Some(res) => Item(ControlRes(res), 3)
    else Bad
  }

  lemma DecodeIsLawful()
    ensures Lawful(Decode)
  {
    forall s: seq<byte>, t: seq<byte> | !Decode(s).More?
      ensures Decode(s + t) == Decode(s)
    {
      var u := s + t;
      assert u[0] == s[0] && u[1] == s[1];
      assert u[2..2 + s[1]] == s[2..2 + s[1]];
    }
  }

  /**
    Encoding then decoding returns the message up to its padding, so it returns the message itself
    exactly when that was zero-padded; bytes that follow are untouched.
   */
  lemma DecodeInvertsEncode(m: DeviceMessage, t: seq<byte>)
    ensures Decode(Encode(m) + t).Item? && Decode(Encode(m) + t).used == |Encode(m)|
    ensures Payload(Decode(Encode(m) + t).msg) == Payload(m)
    ensures Decode(Encode(m) + t).msg == m <==> ZeroPadded(m)
  {
    var s := Encode(m) + t;
    assert s[..2] == [Kind(m), DataSize(m)];
    assert s[2..2 + DataSize(m)] == Payload(m);
    match m {
      case Data(size, body) =>
      case Config(b, d, sb, p, h) =>
        assert s[2..6] == BE32(b);
        assert forall i | 0 <= i < 4 :: s[2..6][i] == s[2 + i];
        assert U32At(s, 2) == U32At(BE32(b), 0);
        assert forall i | 0 <= i < 8 :: Payload(m)[i] == s[2 + i];
      case ControlReq(req) => assert s[2] == Payload(m)[0];
      case ControlRes(res) => assert s[2] == Payload(m)[0];
    }
  }

  lemma DecodeRecovers()
    ensures Recovers(Decode, Encode, m => ZeroPadded(m))
  {
    forall m, t | ZeroPadded(m)
      ensures Decode(Encode(m) + t) == Item(m, |Encode(m)|)
    {
      DecodeInvertsEncode(m, t);
    }
  }

  /** Every strict prefix of an encoded message is an unfinished message, never an error. */
  lemma StrictPrefixOfEncodeAsksForMore(m: DeviceMessage, k: nat)
    requires k < |Encode(m)|
    ensures Decode(Encode(m)[..k]).More?
  {
    DecodeIsLawful();
    DecodeInvertsEncode(m, []);
    assert Encode(m) + [] == Encode(m);
    StrictPrefixAsksForMore(Decode, Encode(m), k);
  }

  /** The payload size the header should announce for a message kind, if the kind fixes one. */
  function FixedSize(kind: byte): Option<nat> {
    if kind == 2 then Some(8) else if kind == 3 || kind == 4 then Some(1) else None
  }

  /**
    The decoder ignores the announced length of kinds 2 to 4. What it consumed is the encoding of
    what it returned, and is as long as the header says, exactly when that length was right.
   */
  lemma EncodeInvertsDecodeIffLengthRight(s: seq<byte>)
    requires Decode(s).Item?
    ensures var n := Decode(s).used;
            && ZeroPadded(Decode(s).msg)
            && (s[..n] == Encode(Decode(s).msg) <==> s[0] == 1 || Some(s[1] as nat) == FixedSize(s[0]))
            && (n == 2 + s[1] as int <==> s[0] == 1 || Some(s[1] as nat) == FixedSize(s[0]))
  {
    var m, n := Decode(s).msg, Decode(s).used;
    assert s[..2] == [s[0], s[1]];
    match m {
      case Data(size, body) =>
        assert s[..n] == s[..2] + s[2..n];
      case Config(b, d, sb, p, h) =>
        BE32OfValue(s, 2);
        assert s[..n] == s[..2] + s[2..6] + [s[6], s[7], s[8], s[9]];
        assert Encode(m)[1] == 8;
      case ControlReq(req) =>
        assert s[..n] == [s[0], s[1], s[2]];
      case ControlRes(res) =>
        assert s[..n] == [s[0], s[1], s[2]];
    }
    assert s[..n][1] == s[1] && Encode(m)[1] == DataSize(m);
  }

  /** What stays buffered after an error-free drain is less than one maximal frame. */
  lemma LeftoverIsBounded(s: seq<byte>)
    ensures Lawful(Decode)
    ensures var r := Drain(Decode, s); !r.bad ==> |r.rest| <= 256
  {
    DecodeIsLawful();
    if !Drain(Decode, s).bad {
      LeftoverAsksForMore(Decode, s);
    }
  }

  /** The bound is tight: a maximal data frame without its last byte stays buffered whole. */
  lemma LeftoverBoundIsReached(m: DeviceMessage)
    requires m.Data? && m.size == 255
    ensures Lawful(Decode) && Drain(Decode, Encode(m)[..256]) == Drained([], false, Encode(m)[..256])
  {
    DecodeIsLawful();
    StrictPrefixOfEncodeAsksForMore(m, 256);
  }

  /** A device stream decodes the same however it is cut into chunks, and little stays buffered. */
  lemma DeviceStreamsAreUnsegmented(chunks: seq<seq<byte>>)
    ensures Lawful(Decode)
    ensures Accounts(Decode, FeedAll(Decode, chunks), Concat(chunks))
    ensures !FeedAll(Decode, chunks).failed ==> |FeedAll(Decode, chunks).buf| <= 256
  {
    DecodeIsLawful();
    ChunkingDoesNotMatter(Decode, chunks);
    LeftoverIsBounded(Concat(chunks));
    var f := FeedAll(Decode, chunks);
    assert !f.failed ==> f.buf + f.unread == f.buf;
  }

  /** The codec as it is run: it appends to and consumes from a buffer. */
  class Codec {
    constructor () {}

    method EncodeInto(m: DeviceMessage, dst: BytesMut)
      modifies dst
      ensures dst.data == old(dst.data) + Encode(m)
    {
      hide BE32;
      dst.PutU8(Kind(m));
      dst.PutU8(DataSize(m));
      match m {
        case Data(size, body) =>
          dst.PutSlice(body[..size]);
        case Config(baudrate, dataBits, stopBits, parity, hwFlowCtl) =>
          dst.PutU32(baudrate);
          dst.PutU8(dataBits);
          dst.PutU8(stopBits);
          dst.PutU8(parity);
          dst.PutU8(BoolByte(hwFlowCtl));
        case ControlReq(req) =>
          dst.PutU8(RequestCode(req));
        case ControlRes(res) =>
          dst.PutU8(ResponseCode(res));
      }
    }

    method DecodeFrom(src: BytesMut) returns (r: Polled<DeviceMessage>)
      modifies src
      ensures match Decode(old(src.data))
              case More => r == Pending && src.data == old(src.data)
              case Item(m, n) => r == Ready(m) && src.data == old(src.data)[n..]
              case Bad => r == Malformed && src.data == old(src.data)
    {
      var cursor := new Cursor(src.data);
      var kind := cursor.TryGetU8();
      if kind == None { return Pending; }
      var dataLen := cursor.TryGetU8();
      if dataLen == None || cursor.Remaining() < dataLen.value { return Pending; }
      var item: DeviceMessage;
      if kind.value == 1 {
        var data := cursor.TryTake(dataLen.value);
        item := Data(dataLen.value, Pad(data.value));
      } else if kind.value == 2 {
        var baudrate := cursor.TryGetU32();
        if baudrate == None { return Pending; }
        var dataBits := cursor.TryGetU8();
        if dataBits == None { return Pending; }
        var stopBits := cursor.TryGetU8();
        if stopBits == None { return Pending; }
        var parity := cursor.TryGetU8();
        if parity == None { return Pending; }
        var hwFlowCtl := cursor.TryGetU8();
        if hwFlowCtl == None { return Pending; }
        if hwFlowCtl.value > 1 { return Malformed; }
        item := Config(baudrate.value, dataBits.value, stopBits.value, parity.value, hwFlowCtl.value != 0);
      } else if kind.value == 3 {
        var req := cursor.TryGetU8();
        if req == None { return Pending; }
        if RequestOf(req.value) == None { return Malformed; }
        item := ControlReq(RequestOf(req.value).value);
      } else if kind.value == 4 {
        var res := cursor.TryGetU8();
        if res == None { return Pending; }
        if ResponseOf(res.value) == None { return Malformed; }
        item := ControlRes(ResponseOf(res.value).value);
      } else {
        return Malformed;
      }
      src.Advance(cursor.pos);
      return Ready(item);
    }
  }
}
