/**
  The control protocol of common/src/ctl.rs between the command-line tool and the daemon: requests
  and responses, their encoders (which may stop half way) and their incremental decoders.
 */
module ControlCodec {
  import opened Bytes
  import opened Streams
  import opened Utf8

  datatype Request =
    | Add(name: Utf8, addr: u32, port: u16)
    | Remove(name: Utf8)
    | List
    | Reset(name: Utf8)

  datatype Info = Info(name: Utf8, addr: u32, port: u16, ptsPath: Utf8, connected: bool)

  datatype Response =
    | AddOk(ptsPath: Utf8)
    | RemoveOk
    | Listing(conns: seq<Info>)
    | ResetOk
    | Error(message: Utf8)

  function RequestType(m: Request): byte {
    match m
    case Add(_, _, _) => 1
    case Remove(_) => 2
    case List => 3
    case Reset(_) => 4
  }

  function ResponseType(m: Response): byte {
    match m
    case AddOk(_) => 1
    case RemoveOk => 2
    case Listing(_) => 3
    case ResetOk => 4
    case Error(_) => 255
  }

  // ---------------------------------------------------------------- encoders

  /** What an encoder wrote, and whether it went through to the end. */
  datatype Encoded = Encoded(bytes: seq<byte>, ok: bool) {
    function Then(next: Encoded): Encoded {
      if ok then Encoded(bytes + next.bytes, next.ok) else this
    }
  }

  function EncodeStr(s: Utf8): Encoded {
    if |s| > 255 then Encoded([], false) else Encoded([|s|] + s, true)
  }

  function EncodeInfo(c: Info): Encoded {
    EncodeStr(c.name)
    .Then(Encoded(BE32(c.addr) + BE16(c.port), true))
    .Then(EncodeStr(c.ptsPath))
    .Then(Encoded([BoolByte(c.connected)], true))
  }

  function EncodeInfos(cs: seq<Info>): Encoded {
    if cs == [] then Encoded([], true) else EncodeInfo(cs[0]).Then(EncodeInfos(cs[1..]))
  }

  function RequestBody(m: Request): Encoded {
    match m
    case Add(name, addr, port) => EncodeStr(name).Then(Encoded(BE32(addr) + BE16(port), true))
    case Remove(name) => EncodeStr(name)
    case List => Encoded([], true)
    case Reset(name) => EncodeStr(name)
  }

  function EncodeRequest(m: Request): Encoded {
    Encoded([RequestType(m)], true).Then(RequestBody(m))
  }

  /** The 16-bit count of a list is truncated, not checked. */
  function EncodeListing(conns: seq<Info>): Encoded {
    Encoded(BE16(|conns| % 0x1_0000), true).Then(EncodeInfos(conns))
  }

  function ResponseBody(m: Response): Encoded {
    match m
    case AddOk(path) => EncodeStr(path)
    case RemoveOk => Encoded([], true)
    case Listing(conns) => EncodeListing(conns)
    case ResetOk => Encoded([], true)
    case Error(message) => EncodeStr(message)
  }

  function EncodeResponse(m: Response): Encoded {
    Encoded([ResponseType(m)], true).Then(ResponseBody(m))
  }

  // ---------------------------------------------------------------- decoders

  /** The result of reading one field at a position. */
  datatype Parsed<+T> = Need | Fail | Got(val: T, next: nat)

  function StrAt(s: seq<byte>, i: nat): (r: Parsed<Utf8>)
    requires i <= |s|
    ensures r.Got? ==> i < r.next <= |s|
  {
    if i == |s| || i + 1 + s[i] > |s| then Need
    else if IsUtf8(s[i + 1..i + 1 + s[i]]) then Got(s[i + 1..i + 1 + s[i]], i + 1 + s[i] as int)
    else Fail
  }

  function InfoAt(s: seq<byte>, i: nat): (r: Parsed<Info>)
    requires i <= |s|
    ensures r.Got? ==> i < r.next <= |s|
  {
    match StrAt(s, i)
    case Need => Need
    case Fail => Fail
    case Got(name, j) =>
      if j + 6 > |s| then Need
      else match StrAt(s, j + 6)
           case Need => Need
           case Fail => Fail
           case Got(path, k) =>
             if k == |s| then Need
             else if s[k] >= 2 then Fail
             else Got(Info(name, U32At(s, j), U16At(s, j + 4), path, s[k] != 0), k + 1)
  }

  function InfosAt(s: seq<byte>, i: nat, count: nat): (r: Parsed<seq<Info>>)
    requires i <= |s|
    ensures r.Got? ==> i <= r.next <= |s| && |r.val| == count
    decreases count
  {
    if count == 0 then Got([], i)
    else match InfoAt(s, i)
         case Need => Need
         case Fail => Fail
         case Got(c, j) =>
           match InfosAt(s, j, count - 1)
           case Need => Need
           case Fail => Fail
           case Got(cs, k) => Got([c] + cs, k)
  }

  /** A field reader's verdict as a decoder's, with the message built from the value read. */
  function Finish<T, M>(p: Parsed<T>, build: T -> M): Outcome<M> {
    match p
    case Need => More
    case Fail => Bad
    case Got(v, n) => Item(build(v), n)
  }

  function DecodeRequest(s: seq<byte>): Outcome<Request> {
    if s == [] then More
    else if s[0] == 1 then
      match StrAt(s, 1)
      case Need => More
      case Fail => Bad
      case Got(name, j) =>
        if j + 6 > |s| then More else Item(Add(name, U32At(s, j), U16At(s, j + 4)), j + 6)
    else if s[0] == 2 then Finish(StrAt(s, 1), name => Remove(name))
    else if s[0] == 3 then Item(List, 1)
    else if s[0] == 4 then Finish(StrAt(s, 1), name => Reset(name))
    else Bad
  }

  function DecodeResponse(s: seq<byte>): Outcome<Response> {
    if s == [] then More
    else if s[0] == 1 then Finish(StrAt(s, 1), path => AddOk(path))
    else if s[0] == 2 then Item(RemoveOk, 1)
    else if s[0] == 3 then
      if |s| < 3 then More else Finish(InfosAt(s, 3, U16At(s, 1)), conns => Listing(conns))
    else if s[0] == 4 then Item(ResetOk, 1)
    else if s[0] == 255 then Finish(StrAt(s, 1), message => Error(message))
    else Bad
  }

  // ---------------------------------------------------------------- stability

  lemma StrAtStable(s: seq<byte>, i: nat, t: seq<byte>)
    requires i <= |s| && !StrAt(s, i).Need?
    ensures StrAt(s + t, i) == StrAt(s, i)
  {
    assert (s + t)[i + 1..i + 1 + s[i]] == s[i + 1..i + 1 + s[i]];
  }

  lemma InfoAtStable(s: seq<byte>, i: nat, t: seq<byte>)
    requires i <= |s| && !InfoAt(s, i).Need?
    ensures InfoAt(s + t, i) == InfoAt(s, i)
  {
    StrAtStable(s, i, t);
    if StrAt(s, i).Got? {
      StrAtStable(s, StrAt(s, i).next + 6, t);
    }
  }

  lemma {:induction false} InfosAtStable(s: seq<byte>, i: nat, count: nat, t: seq<byte>)
    requires i <= |s| && !InfosAt(s, i, count).Need?
    ensures InfosAt(s + t, i, count) == InfosAt(s, i, count)
    decreases count
  {
    hide InfoAt;
    if count > 0 {
      InfoAtStable(s, i, t);
      if InfoAt(s, i).Got? {
        InfosAtStable(s, InfoAt(s, i).next, count - 1, t);
      }
    }
  }

  lemma DecodeRequestIsLawful()
    ensures Lawful(DecodeRequest)
  {
    forall s: seq<byte>, t: seq<byte> | !DecodeRequest(s).More?
      ensures DecodeRequest(s + t) == DecodeRequest(s)
    {
      assert (s + t)[0] == s[0];
      if !StrAt(s, 1).Need? { StrAtStable(s, 1, t); }
    }
  }

  lemma DecodeResponseIsLawful()
    ensures Lawful(DecodeResponse)
  {
    forall s: seq<byte>, t: seq<byte> | !DecodeResponse(s).More?
      ensures DecodeResponse(s + t) == DecodeResponse(s)
    {
      assert (s + t)[0] == s[0];
      if !StrAt(s, 1).Need? { StrAtStable(s, 1, t); }
      if s[0] == 3 {
        assert U16At(s + t, 1) == U16At(s, 1);
        InfosAtStable(s, 3, U16At(s, 1), t);
      }
    }
  }

  // ---------------------------------------------------------------- decoding what was encoded

  /** `e` ran to the end and wrote the bytes of `s` from `i` to `n`. */
  ghost predicate Spans(e: Encoded, s: seq<byte>, i: nat, n: nat) {
    e.ok && i <= n <= |s| && s[i..n] == e.bytes
  }

  /** A sequence of two encoders spans what its parts span. */
  lemma SpansSplit(a: Encoded, b: Encoded, s: seq<byte>, i: nat, n: nat)
    requires Spans(a.Then(b), s, i, n)
    ensures Spans(a, s, i, i + |a.bytes|) && Spans(b, s, i + |a.bytes|, n)
  {
    var j := i + |a.bytes|;
    assert |s[i..n]| == |a.bytes| + |b.bytes|;
    assert s[i..j] == s[i..n][..|a.bytes|];
    assert s[j..n] == s[i..n][|a.bytes|..];
  }

  lemma SpansJoin(a: Encoded, b: Encoded, s: seq<byte>, i: nat, j: nat, n: nat)
    requires Spans(a, s, i, j) && Spans(b, s, j, n)
    ensures Spans(a.Then(b), s, i, n)
  {
    assert s[i..n] == s[i..j] + s[j..n];
  }

  lemma StrSpan(v: Utf8, s: seq<byte>, i: nat, n: nat)
    requires Spans(EncodeStr(v), s, i, n)
    ensures n == i + 1 + |v| && s[i] == |v| && s[i + 1..n] == v
  {
    var b: seq<byte> := s[i..n];
    assert |b| == 1 + |v|;
    assert s[i] == b[0];
    forall k | 0 <= k < |v|
      ensures s[i + 1..n][k] == v[k]
    {
      assert s[i + 1..n][k] == b[1 + k];
    }
  }

  lemma StrDecodes(v: Utf8, s: seq<byte>, i: nat, n: nat)
    requires Spans(EncodeStr(v), s, i, n)
    ensures StrAt(s, i) == Got(v, n)
  {
    StrSpan(v, s, i, n);
  }

  lemma StrEncodes(s: seq<byte>, i: nat)
    requires i <= |s| && StrAt(s, i).Got?
    ensures Spans(EncodeStr(StrAt(s, i).val), s, i, StrAt(s, i).next)
  {
    assert s[i..StrAt(s, i).next] == [s[i]] + s[i + 1..StrAt(s, i).next];
  }

  function AddrPort(addr: u32, port: u16): Encoded {
    Encoded(BE32(addr) + BE16(port), true)
  }

  lemma AddrPortDecodes(addr: u32, port: u16, s: seq<byte>, i: nat, n: nat)
    requires Spans(AddrPort(addr, port), s, i, n)
    ensures n == i + 6 && U32At(s, i) == addr && U16At(s, i + 4) == port
  {
    var b := BE32(addr) + BE16(port);
    assert s[i..n] == b && |b| == 6;
    assert forall k | 0 <= k < 6 :: s[i + k] == s[i..n][k];
    assert s[i] == BE32(addr)[0] && s[i + 1] == BE32(addr)[1] && s[i + 2] == BE32(addr)[2] && s[i + 3] == BE32(addr)[3];
    assert s[i + 4] == b[4] == BE16(port)[0] && s[i + 5] == b[5] == BE16(port)[1];
    assert U32At(s, i) == U32At(BE32(addr), 0);
    assert U16At(s, i + 4) == U16At(BE16(port), 0);
  }

  lemma AddrPortEncodes(s: seq<byte>, i: nat)
    requires i + 6 <= |s|
    ensures Spans(AddrPort(U32At(s, i), U16At(s, i + 4)), s, i, i + 6)
  {
    BE32OfValue(s, i);
    BE16OfValue(s, i + 4);
    assert s[i..i + 6] == s[i..i + 4] + s[i + 4..i + 6];
  }

  /** Where the four fields of a list entry lie. */
  lemma InfoSpans(c: Info, s: seq<byte>, i: nat, n: nat) returns (j: nat, k: nat)
    requires Spans(EncodeInfo(c), s, i, n)
    ensures Spans(EncodeStr(c.name), s, i, j)
    ensures Spans(AddrPort(c.addr, c.port), s, j, j + 6)
    ensures Spans(EncodeStr(c.ptsPath), s, j + 6, k)
    ensures Spans(Encoded([BoolByte(c.connected)], true), s, k, n)
  {
    hide EncodeStr, BE16, BE32, IsUtf8;
    var e1 := EncodeStr(c.name);
    var e2 := e1.Then(AddrPort(c.addr, c.port));
    var e3 := e2.Then(EncodeStr(c.ptsPath));
    SpansSplit(e3, Encoded([BoolByte(c.connected)], true), s, i, n);
    SpansSplit(e2, EncodeStr(c.ptsPath), s, i, i + |e3.bytes|);
    SpansSplit(e1, AddrPort(c.addr, c.port), s, i, i + |e2.bytes|);
    j, k := i + |e1.bytes|, i + |e3.bytes|;
  }

  lemma InfoDecodes(c: Info, s: seq<byte>, i: nat, n: nat)
    requires Spans(EncodeInfo(c), s, i, n)
    ensures InfoAt(s, i) == Got(c, n)
  {
    hide EncodeInfo, EncodeStr, StrAt, IsUtf8, BE16, BE32;
    var j, k := InfoSpans(c, s, i, n);
    StrDecodes(c.name, s, i, j);
    AddrPortDecodes(c.addr, c.port, s, j, j + 6);
    StrDecodes(c.ptsPath, s, j + 6, k);
    assert s[k] == s[k..n][0] == BoolByte(c.connected);
  }

  lemma InfoEncodes(s: seq<byte>, i: nat)
    requires i <= |s| && InfoAt(s, i).Got?
    ensures Spans(EncodeInfo(InfoAt(s, i).val), s, i, InfoAt(s, i).next)
  {
    hide EncodeStr, StrAt, IsUtf8, BE16, BE32;
    var Got(c, n) := InfoAt(s, i);
    var j := StrAt(s, i).next;
    var k := StrAt(s, j + 6).next;
    StrEncodes(s, i);
    AddrPortEncodes(s, j);
    StrEncodes(s, j + 6);
    var e1 := EncodeStr(c.name);
    var e2 := e1.Then(AddrPort(c.addr, c.port));
    var e3 := e2.Then(EncodeStr(c.ptsPath));
    SpansJoin(e1, AddrPort(c.addr, c.port), s, i, j, j + 6);
    SpansJoin(e2, EncodeStr(c.ptsPath), s, i, j + 6, k);
    assert s[k..k + 1] == [BoolByte(c.connected)];
    SpansJoin(e3, Encoded([BoolByte(c.connected)], true), s, i, k, n);
  }

  lemma {:induction false} InfosDecode(cs: seq<Info>, s: seq<byte>, i: nat, n: nat)
    requires Spans(EncodeInfos(cs), s, i, n)
    ensures InfosAt(s, i, |cs|) == Got(cs, n)
  {
    hide EncodeInfo, InfoAt;
    if cs != [] {
      var e := EncodeInfo(cs[0]);
      SpansSplit(e, EncodeInfos(cs[1..]), s, i, n);
      InfoDecodes(cs[0], s, i, i + |e.bytes|);
      InfosDecode(cs[1..], s, i + |e.bytes|, n);
      assert cs == [cs[0]] + cs[1..];
    }
  }

  lemma {:induction false} InfosEncode(s: seq<byte>, i: nat, count: nat)
    requires i <= |s| && InfosAt(s, i, count).Got?
    ensures Spans(EncodeInfos(InfosAt(s, i, count).val), s, i, InfosAt(s, i, count).next)
    decreases count
  {
    hide EncodeInfo, InfoAt;
    if count > 0 {
      var Got(c, j) := InfoAt(s, i);
      var Got(cs, n) := InfosAt(s, j, count - 1);
      InfoEncodes(s, i);
      InfosEncode(s, j, count - 1);
      SpansJoin(EncodeInfo(c), EncodeInfos(cs), s, i, j, n);
      assert ([c] + cs)[0] == c && ([c] + cs)[1..] == cs;
    }
  }

  // ---------------------------------------------------------------- the inverse laws

  lemma RequestDecodes(m: Request, s: seq<byte>, n: nat)
    requires Spans(EncodeRequest(m), s, 0, n)
    ensures DecodeRequest(s) == Item(m, n)
  {
    var head := Encoded([RequestType(m)], true);
    assert s[0] == s[0..n][0] == RequestType(m);
    match m {
      case Add(name, addr, port) =>
        var tail := EncodeStr(name).Then(AddrPort(addr, port));
        SpansSplit(head, tail, s, 0, n);
        SpansSplit(EncodeStr(name), AddrPort(addr, port), s, 1, n);
        StrDecodes(name, s, 1, 1 + |EncodeStr(name).bytes|);
        AddrPortDecodes(addr, port, s, 1 + |EncodeStr(name).bytes|, n);
      case Remove(name) =>
        SpansSplit(head, EncodeStr(name), s, 0, n);
        StrDecodes(name, s, 1, n);
      case List =>
      case Reset(name) =>
        SpansSplit(head, EncodeStr(name), s, 0, n);
        StrDecodes(name, s, 1, n);
    }
  }

  /** Whatever the request decoder accepts is, byte for byte, the encoding of what it returns. */
  lemma DecodedRequestEncodes(s: seq<byte>)
    requires DecodeRequest(s).Item?
    ensures EncodeRequest(DecodeRequest(s).msg) == Encoded(s[..DecodeRequest(s).used], true)
  {
    var m, n := DecodeRequest(s).msg, DecodeRequest(s).used;
    var head := Encoded([RequestType(m)], true);
    assert s[0..1] == [s[0]];
    if m.List? {
      assert s[..1] == [s[0]];
    } else {
      StrEncodes(s, 1);
      if m.Add? {
        var j := StrAt(s, 1).next;
        AddrPortEncodes(s, j);
        SpansJoin(EncodeStr(m.name), AddrPort(m.addr, m.port), s, 1, j, n);
        SpansJoin(head, EncodeStr(m.name).Then(AddrPort(m.addr, m.port)), s, 0, 1, n);
      } else {
        SpansJoin(head, EncodeStr(m.name), s, 0, 1, n);
      }
    }
  }

  /** The count and the entries after a type byte. */
  lemma ListingDecodes(conns: seq<Info>, s: seq<byte>, n: nat)
    requires |conns| < 0x1_0000 && Spans(EncodeListing(conns), s, 1, n)
    ensures 3 <= |s| && InfosAt(s, 3, U16At(s, 1)) == Got(conns, n)
  {
    hide EncodeInfos, InfosAt;
    var count := Encoded(BE16(|conns|), true);
    SpansSplit(count, EncodeInfos(conns), s, 1, n);
    assert s[1] == s[1..3][0] && s[2] == s[1..3][1];
    assert U16At(s, 1) == U16At(BE16(|conns|), 0);
    InfosDecode(conns, s, 3, n);
  }

  lemma ResponseDecodes(m: Response, s: seq<byte>, n: nat)
    requires Spans(EncodeResponse(m), s, 0, n)
    requires m.Listing? ==> |m.conns| < 0x1_0000
    ensures DecodeResponse(s) == Item(m, n)
  {
    hide EncodeInfos, EncodeListing, InfosAt, StrAt, EncodeStr;
    var head := Encoded([ResponseType(m)], true);
    assert s[0] == s[0..n][0] == ResponseType(m);
    match m {
      case AddOk(path) =>
        SpansSplit(head, EncodeStr(path), s, 0, n);
        StrDecodes(path, s, 1, n);
      case RemoveOk =>
      case Listing(conns) =>
        SpansSplit(head, EncodeListing(conns), s, 0, n);
        ListingDecodes(conns, s, n);
      case ResetOk =>
      case Error(message) =>
        SpansSplit(head, EncodeStr(message), s, 0, n);
        StrDecodes(message, s, 1, n);
    }
  }

  lemma ListingEncodes(s: seq<byte>, i: nat, conns: seq<Info>, n: nat)
    requires i + 2 <= |s| && |conns| == U16At(s, i)
    requires Spans(EncodeInfos(conns), s, i + 2, n)
    ensures Spans(EncodeListing(conns), s, i, n)
  {
    hide EncodeInfos, InfosAt;
    var count: u16 := U16At(s, i);
    var e := Encoded(BE16(count), true);
    BE16OfValue(s, i);
    assert Spans(e, s, i, i + 2);
    SpansJoin(e, EncodeInfos(conns), s, i, i + 2, n);
    assert EncodeListing(conns) == e.Then(EncodeInfos(conns));
  }

  lemma DecodedTextEncodes(m: Response, s: seq<byte>)
    requires |s| >= 1 && s[0] == ResponseType(m) && StrAt(s, 1).Got?
    requires m == AddOk(StrAt(s, 1).val) || m == Error(StrAt(s, 1).val)
    ensures Spans(EncodeResponse(m), s, 0, StrAt(s, 1).next)
  {
    StrEncodes(s, 1);
    assert s[0..1] == [s[0]];
    SpansJoin(Encoded([ResponseType(m)], true), EncodeStr(StrAt(s, 1).val), s, 0, 1, StrAt(s, 1).next);
  }

  /** Whatever the response decoder accepts is the encoding of what it returns, lists included. */
  lemma DecodedResponseEncodes(s: seq<byte>)
    requires DecodeResponse(s).Item?
    ensures EncodeResponse(DecodeResponse(s).msg) == Encoded(s[..DecodeResponse(s).used], true)
    ensures DecodeResponse(s).msg.Listing? ==> |DecodeResponse(s).msg.conns| < 0x1_0000
  {
    hide EncodeInfos, InfosAt, EncodeStr, StrAt;
    var m, n := DecodeResponse(s).msg, DecodeResponse(s).used;
    assert s[..n] == s[0..n];
    match m {
      case AddOk(path) => DecodedTextEncodes(m, s);
      case RemoveOk => assert s[..1] == [s[0]];
      case Listing(conns) =>
        InfosEncode(s, 3, U16At(s, 1));
        ListingEncodes(s, 1, conns, n);
        assert s[0..1] == [s[0]];
        SpansJoin(Encoded([3], true), EncodeListing(conns), s, 0, 1, n);
      case ResetOk => assert s[..1] == [s[0]];
      case Error(message) => DecodedTextEncodes(m, s);
    }
  }

  predicate InfoFits(c: Info) { |c.name| <= 255 && |c.ptsPath| <= 255 }

  predicate RequestFits(m: Request) {
    m.List? || |m.name| <= 255
  }

  predicate ResponseFits(m: Response) {
    match m
    case AddOk(path) => |path| <= 255
    case Listing(conns) => |conns| <= 0xFFFF && forall c <- conns :: InfoFits(c)
    case Error(message) => |message| <= 255
    case _ => true
  }

  lemma {:induction false} InfosEncodeIffFit(cs: seq<Info>)
    ensures EncodeInfos(cs).ok <==> forall c <- cs :: InfoFits(c)
  {
    if cs != [] {
      InfosEncodeIffFit(cs[1..]);
      assert EncodeInfo(cs[0]).ok <==> InfoFits(cs[0]);
      assert forall c :: c in cs <==> c == cs[0] || c in cs[1..];
    }
  }

  /**
    A request survives the trip, whatever follows it, exactly when its strings are short enough
    for their one-byte length. A refused encode still leaves bytes behind.
   */
  lemma RequestRoundTripsIffFits(m: Request, t: seq<byte>)
    ensures var e := EncodeRequest(m);
            (e.ok && DecodeRequest(e.bytes + t) == Item(m, |e.bytes|)) <==> RequestFits(m)
    ensures EncodeRequest(m).ok <==> RequestFits(m)
    ensures !RequestFits(m) ==> EncodeRequest(m).bytes == [RequestType(m)]
  {
    var e := EncodeRequest(m);
    if RequestFits(m) {
      assert (e.bytes + t)[0..|e.bytes|] == e.bytes;
      RequestDecodes(m, e.bytes + t, |e.bytes|);
    }
  }

  /**
    A response survives the trip exactly when its strings fit and its list fits the 16-bit count.
    A longer list is not refused: its count wraps around and another message arrives.
   */
  lemma ResponseRoundTripsIffFits(m: Response, t: seq<byte>)
    ensures var e := EncodeResponse(m);
            (e.ok && DecodeResponse(e.bytes + t) == Item(m, |e.bytes|)) <==> ResponseFits(m)
    ensures EncodeResponse(m).ok <==>
            ResponseFits(m) || (m.Listing? && |m.conns| > 0xFFFF && forall c <- m.conns :: InfoFits(c))
  {
    var e := EncodeResponse(m);
    if m.Listing? {
      InfosEncodeIffFit(m.conns);
    }
    if ResponseFits(m) {
      assert (e.bytes + t)[0..|e.bytes|] == e.bytes;
      ResponseDecodes(m, e.bytes + t, |e.bytes|);
    } else if DecodeResponse(e.bytes + t) == Item(m, |e.bytes|) {
      DecodedResponseEncodes(e.bytes + t);
    }
  }

  lemma StrictPrefixOfRequestAsksForMore(m: Request, k: nat)
    requires RequestFits(m) && k < |EncodeRequest(m).bytes|
    ensures DecodeRequest(EncodeRequest(m).bytes[..k]).More?
  {
    var b := EncodeRequest(m).bytes;
    DecodeRequestIsLawful();
    RequestRoundTripsIffFits(m, []);
    assert b + [] == b;
    StrictPrefixAsksForMore(DecodeRequest, b, k);
  }

  lemma StrictPrefixOfResponseAsksForMore(m: Response, k: nat)
    requires ResponseFits(m) && k < |EncodeResponse(m).bytes|
    ensures DecodeResponse(EncodeResponse(m).bytes[..k]).More?
  {
    var b := EncodeResponse(m).bytes;
    DecodeResponseIsLawful();
    ResponseRoundTripsIffFits(m, []);
    assert b + [] == b;
    StrictPrefixAsksForMore(DecodeResponse, b, k);
  }

  /** Both control streams decode the same however they are cut into chunks. */
  lemma ControlStreamsAreUnsegmented(chunks: seq<seq<byte>>)
    ensures Lawful(DecodeRequest) && Accounts(DecodeRequest, FeedAll(DecodeRequest, chunks), Concat(chunks))
    ensures Lawful(DecodeResponse) && Accounts(DecodeResponse, FeedAll(DecodeResponse, chunks), Concat(chunks))
  {
    DecodeRequestIsLawful();
    DecodeResponseIsLawful();
    ChunkingDoesNotMatter(DecodeRequest, chunks);
    ChunkingDoesNotMatter(DecodeResponse, chunks);
  }

  // ---------------------------------------------------------------- what does not fit

  lemma {:induction false} LettersAreUtf8(n: nat)
    ensures IsUtf8(seq(n, _ => 0x61))
  {
    if n > 0 {
      var s: seq<byte> := seq(n, _ => 0x61);
      LettersAreUtf8(n - 1);
      assert s[1..] == seq(n - 1, _ => 0x61);
    }
  }

  /** A name of 256 letters: encoding fails with the type byte written. */
  lemma LongNameIsRefused() returns (m: Request)
    ensures m.Remove? && |m.name| == 256 && EncodeRequest(m) == Encoded([2], false)
  {
    LettersAreUtf8(256);
    m := Remove(seq(256, _ => 0x61));
  }

  /** A listing of 65536 entries encodes without an error, and decodes as the empty listing. */
  lemma LongListingIsLost() returns (m: Response)
    ensures m.Listing? && |m.conns| == 0x1_0000 && EncodeResponse(m).ok
    ensures DecodeResponse(EncodeResponse(m).bytes) == Item(Listing([]), 3)
  {
    hide EncodeInfos, EncodeInfo;
    var conns := seq(0x1_0000, _ => Info([], 0, 0, [], false));
    m := Listing(conns);
    InfosEncodeIffFit(conns);
    var bytes := EncodeResponse(m).bytes;
    assert bytes == [3] + (BE16(0) + EncodeInfos(conns).bytes);
    assert bytes[0] == 3 && bytes[1] == 0 && bytes[2] == 0;
  }
}
