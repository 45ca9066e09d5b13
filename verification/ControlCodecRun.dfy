/**
  The control codecs as they are run: encoders that append to a buffer field by field and decoders
  that move a cursor, each proved to do what the functions of ControlCodec say.
 */
module ControlCodecRun {
  import opened Bytes
  import opened Buffers
  import opened Streams
  import opened Utf8
  import opened ControlCodec

  method EncodeStrInto(s: Utf8, dst: BytesMut) returns (ok: bool)
    modifies dst
    ensures var e := EncodeStr(s); dst.data == old(dst.data) + e.bytes && ok == e.ok
  {
    if |s| > 255 {
      return false;
    }
    dst.PutU8(|s|);
    dst.PutSlice(s);
    return true;
  }

  method EncodeRequestInto(m: Request, dst: BytesMut) returns (ok: bool)
    modifies dst
    ensures var e := EncodeRequest(m); dst.data == old(dst.data) + e.bytes && ok == e.ok
  {
    hide EncodeStr;
    dst.PutU8(RequestType(m));
    match m {
      case Add(name, addr, port) =>
        ok := EncodeStrInto(name, dst);
        if !ok { return; }
        dst.PutU32(addr);
        dst.PutU16(port);
      case Remove(name) =>
        ok := EncodeStrInto(name, dst);
      case List =>
        ok := true;
      case Reset(name) =>
        ok := EncodeStrInto(name, dst);
    }
  }

  method EncodeInfoInto(c: Info, dst: BytesMut) returns (ok: bool)
    modifies dst
    ensures var e := EncodeInfo(c); dst.data == old(dst.data) + e.bytes && ok == e.ok
  {
    hide EncodeStr;
    ghost var start, e := dst.data, EncodeStr(c.name);
    ok := EncodeStrInto(c.name, dst);
    if !ok { return; }
    dst.PutU32(c.addr);
    dst.PutU16(c.port);
    e := e.Then(AddrPort(c.addr, c.port));
    assert dst.data == start + e.bytes;
    ok := EncodeStrInto(c.ptsPath, dst);
    e := e.Then(EncodeStr(c.ptsPath));
    assert dst.data == start + e.bytes;
    if !ok { return; }
    dst.PutU8(BoolByte(c.connected));
  }

  lemma ThenAssociates(a: Encoded, b: Encoded, c: Encoded)
    ensures a.Then(b.Then(c)) == a.Then(b).Then(c)
  {
    if a.ok && b.ok {
      assert a.bytes + (b.bytes + c.bytes) == (a.bytes + b.bytes) + c.bytes;
    }
  }

  method EncodeInfosInto(conns: seq<Info>, dst: BytesMut) returns (ok: bool)
    modifies dst
    ensures var e := EncodeInfos(conns); dst.data == old(dst.data) + e.bytes && ok == e.ok
  {
    ghost var start := dst.data;
    var rest := conns;
    while rest != []
      invariant Encoded(start, true).Then(EncodeInfos(conns)) == Encoded(dst.data, true).Then(EncodeInfos(rest))
    {
      ghost var written, e := dst.data, EncodeInfo(rest[0]);
      ThenAssociates(Encoded(written, true), e, EncodeInfos(rest[1..]));
      ok := EncodeInfoInto(rest[0], dst);
      if !ok { return; }
      rest := rest[1..];
    }
    return true;
  }

  method EncodeResponseInto(m: Response, dst: BytesMut) returns (ok: bool)
    modifies dst
    ensures var e := EncodeResponse(m); dst.data == old(dst.data) + e.bytes && ok == e.ok
  {
    hide EncodeStr, EncodeInfos;
    dst.PutU8(ResponseType(m));
    match m {
      case AddOk(path) =>
        ok := EncodeStrInto(path, dst);
      case RemoveOk =>
        ok := true;
      case Listing(conns) =>
        dst.PutU16(|conns| % 0x1_0000);
        ok := EncodeInfosInto(conns, dst);
      case ResetOk =>
        ok := true;
      case Error(message) =>
        ok := EncodeStrInto(message, dst);
    }
  }

  /** A field reader's verdict without the position. */
  function Verdict<T>(p: Parsed<T>): Polled<T> {
    match p
    case Need => Pending
    case Fail => Malformed
    case Got(v, _) => Ready(v)
  }

  method DecodeStrFrom(cursor: Cursor) returns (r: Polled<Utf8>)
    requires cursor.Valid()
    modifies cursor
    ensures cursor.Valid()
    ensures var p := StrAt(cursor.data, old(cursor.pos)); r == Verdict(p) && (p.Got? ==> cursor.pos == p.next)
  {
    var size := cursor.TryGetU8();
    if size == None { return Pending; }
    var buf := cursor.TryTake(size.value);
    if buf == None { return Pending; }
    if !IsUtf8(buf.value) { return Malformed; }
    return Ready(buf.value);
  }

  method DecodeRequestFrom(src: BytesMut) returns (r: Polled<Request>)
    modifies src
    ensures match DecodeRequest(old(src.data))
            case More => r == Pending && src.data == old(src.data)
            case Item(m, n) => r == Ready(m) && src.data == old(src.data)[n..]
            case Bad => r == Malformed && src.data == old(src.data)
  {
    var cursor := new Cursor(src.data);
    var kind := cursor.TryGetU8();
    if kind == None { return Pending; }
    var msg: Request;
    if kind.value == 3 {
      msg := List;
    } else if kind.value == 1 || kind.value == 2 || kind.value == 4 {
      var name := DecodeStrFrom(cursor);
      match name {
        case Pending => return Pending;
        case Malformed => return Malformed;
        case Ready(name) =>
          if kind.value == 1 {
            var addr := cursor.TryGetU32();
            if addr == None { return Pending; }
            var port := cursor.TryGetU16();
            if port == None { return Pending; }
            msg := Add(name, addr.value, port.value);
          } else {
            msg := if kind.value == 2 then Remove(name) else Reset(name);
          }
      }
    } else {
      return Malformed;
    }
    src.Advance(cursor.pos);
    return Ready(msg);
  }

  method DecodeInfoFrom(cursor: Cursor) returns (r: Polled<Info>)
    requires cursor.Valid()
    modifies cursor
    ensures cursor.Valid()
    ensures var p := InfoAt(cursor.data, old(cursor.pos)); r == Verdict(p) && (p.Got? ==> cursor.pos == p.next)
  {
    var name := DecodeStrFrom(cursor);
    if name == Pending { return Pending; }
    if name == Malformed { return Malformed; }
    var addr := cursor.TryGetU32();
    if addr == None { return Pending; }
    var port := cursor.TryGetU16();
    if port == None { return Pending; }
    var path := DecodeStrFrom(cursor);
    if path == Pending { return Pending; }
    if path == Malformed { return Malformed; }
    var connected := cursor.TryGetU8();
    if connected == None { return Pending; }
    if connected.value >= 2 { return Malformed; }
    return Ready(Info(name.msg, addr.value, port.value, path.msg, connected.value != 0));
  }

  /** A list read so far, put in front of what reading on will give. */
  ghost function Prepend(cs: seq<Info>, p: Parsed<seq<Info>>): Parsed<seq<Info>> {
    match p
    case Need => Need
    case Fail => Fail
    case Got(v, n) => Got(cs + v, n)
  }

  /** Read one of the `left` entries still to come, after the entries `conns`. */
  method DecodeNextFrom(cursor: Cursor, ghost conns: seq<Info>, ghost left: nat) returns (r: Polled<Info>)
    requires cursor.Valid() && left > 0
    modifies cursor
    ensures cursor.Valid()
    ensures Prepend(conns, InfosAt(cursor.data, old(cursor.pos), left)) ==
            match r
            case Pending => Need
            case Malformed => Fail
            case Ready(c) => Prepend(conns + [c], InfosAt(cursor.data, cursor.pos, left - 1))
  {
    r := DecodeInfoFrom(cursor);
    if r.Ready? {
      ghost var rest := InfosAt(cursor.data, cursor.pos, left - 1);
      assert rest.Got? ==> (conns + [r.msg]) + rest.val == conns + ([r.msg] + rest.val);
    }
  }

  lemma PrependNothing(p: Parsed<seq<Info>>)
    ensures Prepend([], p) == p
  {
    assert p.Got? ==> [] + p.val == p.val;
  }

  /** With no entry left to come, the list is what has been read. */
  lemma PrependedAll(cs: seq<Info>, s: seq<byte>, i: nat)
    requires i <= |s|
    ensures Prepend(cs, InfosAt(s, i, 0)) == Got(cs, i)
  {
    assert cs + [] == cs;
  }

  /** The counted loop over the entries of a list. */
  method DecodeListFrom(cursor: Cursor, count: nat) returns (r: Polled<seq<Info>>, ghost p: Parsed<seq<Info>>)
    requires cursor.Valid()
    modifies cursor
    ensures cursor.Valid()
    ensures p == Prepend([], InfosAt(cursor.data, old(cursor.pos), count))
    ensures r == Verdict(p) && (p.Got? ==> cursor.pos == p.next)
  {
    hide InfosAt, Prepend;
    var conns: seq<Info> := [];
    p := Prepend(conns, InfosAt(cursor.data, cursor.pos, count));
    var left := count;
    while left > 0
      invariant cursor.Valid()
      invariant p == Prepend(conns, InfosAt(cursor.data, cursor.pos, left))
    {
      var c := DecodeNextFrom(cursor, conns, left);
      if c == Pending { return Pending, p; }
      if c == Malformed { return Malformed, p; }
      conns := conns + [c.msg];
      left := left - 1;
    }
    PrependedAll(conns, cursor.data, cursor.pos);
    return Ready(conns), p;
  }

  method DecodeResponseFrom(src: BytesMut) returns (r: Polled<Response>)
    modifies src
    ensures match DecodeResponse(old(src.data))
            case More => r == Pending && src.data == old(src.data)
            case Item(m, n) => r == Ready(m) && src.data == old(src.data)[n..]
            case Bad => r == Malformed && src.data == old(src.data)
  {
    var cursor := new Cursor(src.data);
    var kind := cursor.TryGetU8();
    if kind == None { return Pending; }
    var msg: Response;
    if kind.value == 2 {
      msg := RemoveOk;
    } else if kind.value == 4 {
      msg := ResetOk;
    } else if kind.value == 3 {
      var count := cursor.TryGetU16();
      if count == None { return Pending; }
      ghost var all := InfosAt(cursor.data, cursor.pos, count.value);
      var conns, _ := DecodeListFrom(cursor, count.value);
      PrependNothing(all);
      if conns == Pending { return Pending; }
      if conns == Malformed { return Malformed; }
      msg := Listing(conns.msg);
    } else if kind.value == 1 || kind.value == 255 {
      var text := DecodeStrFrom(cursor);
      if text == Pending { return Pending; }
      if text == Malformed { return Malformed; }
      msg := if kind.value == 1 then AddOk(text.msg) else Error(text.msg);
    } else {
      return Malformed;
    }
    src.Advance(cursor.pos);
    return Ready(msg);
  }
}
