/**
  The bytes of both protocols, written out: what each message looks like on the wire, and which
  buffers a decoder calls malformed.
 */
module WireFormat {
  import opened Bytes
  import opened Streams
  import opened Utf8
  import opened ControlCodec
  import D = DeviceCodec

  lemma LastDigit(q: nat, d: byte)
    ensures (q * 0x100 + d) / 0x100 == q && (q * 0x100 + d) % 0x100 == d
  {
  }

  /** Numbers go out in base 256, the highest digit first. */
  lemma NumbersAreBigEndian(v: u16, w: u32)
    ensures BE16(v) == [v / 0x100, v % 0x100]
    ensures BE32(w) == [w / 0x100 / 0x100 / 0x100, w / 0x100 / 0x100 % 0x100, w / 0x100 % 0x100, w % 0x100]
  {
    hide BE32;
    var s := BE32(w);
    var a: nat, b, c, d := s[0], s[1], s[2], s[3];
    assert w == ((a * 0x100 + b) * 0x100 + c) * 0x100 + d;
    LastDigit((a * 0x100 + b) * 0x100 + c, d);
    LastDigit(a * 0x100 + b, c);
    LastDigit(a, b);
  }

  // ---------------------------------------------------------------- the device protocol

  lemma DeviceLayout(m: D.DeviceMessage)
    ensures match m
            case Data(size, body) => D.Encode(m) == [1, size] + body[..size]
            case Config(rate, dataBits, stopBits, parity, flow) =>
              D.Encode(m) == [2, 8] + BE32(rate) + [dataBits, stopBits, parity, if flow then 1 else 0]
            case ControlReq(Reset) => D.Encode(m) == [3, 1, 1]
            case ControlRes(Done) => D.Encode(m) == [4, 1, 1]
            case ControlRes(NotSupported) => D.Encode(m) == [4, 1, 2]
  {
    if m.Config? {
      assert D.Encode(m) == [2, 8] + (BE32(m.baudrate) + [m.dataBits, m.stopBits, m.parity, BoolByte(m.hwFlowCtl)]);
    }
  }

  /** Nothing is malformed before the announced length is there. */
  lemma DeviceMalformedIff(s: seq<byte>)
    ensures D.Decode(s).Bad? <==>
            && |s| >= 2 && |s| >= 2 + s[1] as int
            && (|| s[0] !in {1, 2, 3, 4}
                || (s[0] == 2 && |s| >= 10 && s[9] !in {0, 1})
                || (s[0] == 3 && |s| >= 3 && s[2] != 1)
                || (s[0] == 4 && |s| >= 3 && s[2] !in {1, 2}))
  {
  }

  // ---------------------------------------------------------------- the control protocol

  function TextBytes(t: Utf8): seq<byte>
    requires |t| <= 255
  {
    [|t|] + t
  }

  lemma RequestLayout(m: Request)
    requires RequestFits(m)
    ensures EncodeRequest(m).bytes ==
            match m
            case Add(name, addr, port) => [1] + TextBytes(name) + BE32(addr) + BE16(port)
            case Remove(name) => [2] + TextBytes(name)
            case List => [3]
            case Reset(name) => [4] + TextBytes(name)
  {
  }

  function EntryBytes(c: Info): seq<byte>
    requires InfoFits(c)
  {
    TextBytes(c.name) + BE32(c.addr) + BE16(c.port) + TextBytes(c.ptsPath) + [if c.connected then 1 else 0]
  }

  function EntriesBytes(cs: seq<Info>): seq<byte>
    requires forall c <- cs :: InfoFits(c)
  {
    if cs == [] then [] else EntryBytes(cs[0]) + EntriesBytes(cs[1..])
  }

  lemma EntryLayout(c: Info)
    requires InfoFits(c)
    ensures EncodeInfo(c) == Encoded(EntryBytes(c), true)
  {
    hide IsUtf8, BE16, BE32;
    assert TextBytes(c.name) + (BE32(c.addr) + BE16(c.port)) == TextBytes(c.name) + BE32(c.addr) + BE16(c.port);
  }

  lemma {:induction false} EntriesLayout(cs: seq<Info>)
    requires forall c <- cs :: InfoFits(c)
    ensures EncodeInfos(cs) == Encoded(EntriesBytes(cs), true)
  {
    hide EncodeInfo, EntryBytes;
    if cs != [] {
      EntryLayout(cs[0]);
      EntriesLayout(cs[1..]);
    }
  }

  lemma ResponseLayout(m: Response)
    requires ResponseFits(m)
    ensures EncodeResponse(m).bytes ==
            match m
            case AddOk(path) => [1] + TextBytes(path)
            case RemoveOk => [2]
            case Listing(conns) => [3] + BE16(|conns|) + EntriesBytes(conns)
            case ResetOk => [4]
            case Error(message) => [255] + TextBytes(message)
  {
    hide EncodeInfos, EntriesBytes;
    if m.Listing? {
      EntriesLayout(m.conns);
    }
  }

  /** A text that is all there and is not UTF-8. */
  predicate BadText(s: seq<byte>, i: nat) {
    i < |s| && i + 1 + s[i] <= |s| && !IsUtf8(s[i + 1..i + 1 + s[i]])
  }

  predicate GoodText(s: seq<byte>, i: nat) {
    i < |s| && i + 1 + s[i] <= |s| && IsUtf8(s[i + 1..i + 1 + s[i]])
  }

  /** Only an unknown type or a complete text that is not UTF-8 makes a request malformed. */
  lemma RequestMalformedIff(s: seq<byte>)
    ensures DecodeRequest(s).Bad? <==> s != [] && (s[0] !in {1, 2, 3, 4} || (s[0] != 3 && BadText(s, 1)))
  {
    hide IsUtf8;
  }

  /** The name, the path or the flag of the entry at `i` is wrong, and what comes before it is right. */
  predicate BadEntry(s: seq<byte>, i: nat) {
    || BadText(s, i)
    || (GoodText(s, i)
        && var j := i + 7 + s[i];
           || BadText(s, j)
           || (GoodText(s, j) && j + 1 + s[j] < |s| && s[j + 1 + s[j]] !in {0, 1}))
  }

  lemma EntryMalformedIff(s: seq<byte>, i: nat)
    requires i <= |s|
    ensures InfoAt(s, i).Fail? <==> BadEntry(s, i)
  {
    hide IsUtf8;
  }

  /** After the entries `cs`, fewer than announced, comes a wrong one. */
  ghost predicate WrongAfter(s: seq<byte>, i: nat, count: nat, cs: seq<Info>, p: nat) {
    |cs| < count && Spans(EncodeInfos(cs), s, i, p) && BadEntry(s, p)
  }

  lemma {:induction false} WrongEntryIsFound(s: seq<byte>, i: nat, count: nat, cs: seq<Info>, p: nat)
    requires i <= |s| && WrongAfter(s, i, count, cs, p)
    ensures InfosAt(s, i, count).Fail?
    decreases count
  {
    hide InfoAt, EncodeInfo, BadEntry;
    if cs == [] {
      EntryMalformedIff(s, i);
    } else {
      var j := i + |EncodeInfo(cs[0]).bytes|;
      SpansSplit(EncodeInfo(cs[0]), EncodeInfos(cs[1..]), s, i, p);
      InfoDecodes(cs[0], s, i, j);
      WrongEntryIsFound(s, j, count - 1, cs[1..], p);
    }
  }

  lemma {:induction false} FailureHasAWrongEntry(s: seq<byte>, i: nat, count: nat) returns (cs: seq<Info>, p: nat)
    requires i <= |s| && InfosAt(s, i, count).Fail?
    ensures WrongAfter(s, i, count, cs, p)
    decreases count
  {
    hide InfoAt, EncodeInfo, BadEntry;
    EntryMalformedIff(s, i);
    cs, p := [], i;
    if InfoAt(s, i).Got? {
      var Got(c, j) := InfoAt(s, i);
      var rest, q := FailureHasAWrongEntry(s, j, count - 1);
      InfoEncodes(s, i);
      SpansJoin(EncodeInfo(c), EncodeInfos(rest), s, i, j, q);
      cs, p := [c] + rest, q;
      assert cs[1..] == rest;
    }
  }

  /** A listing is malformed exactly when good entries lead to a bad one that the count covers. */
  lemma ResponseMalformedIff(s: seq<byte>)
    ensures DecodeResponse(s).Bad? <==>
            && s != []
            && (|| s[0] !in {1, 2, 3, 4, 255}
                || (s[0] in {1, 255} && BadText(s, 1))
                || (s[0] == 3 && |s| >= 3 && exists cs, p :: WrongAfter(s, 3, U16At(s, 1), cs, p)))
  {
    hide IsUtf8, InfosAt, WrongAfter;
    if |s| >= 3 && s[0] == 3 {
      if InfosAt(s, 3, U16At(s, 1)).Fail? {
        var cs, p := FailureHasAWrongEntry(s, 3, U16At(s, 1));
      } else if cs, p :| WrongAfter(s, 3, U16At(s, 1), cs, p) {
        WrongEntryIsFound(s, 3, U16At(s, 1), cs, p);
      }
    }
  }
}
