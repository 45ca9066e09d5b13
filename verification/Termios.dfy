/**
  The daemon's pseudo-terminal in packet mode (daemon/src/async_pty.rs): which terminal settings
  are reported to the device and what the report says. Control flags are the Linux bit masks.
 */
module Termios {
  import opened Bytes
  import opened DeviceCodec
  import opened FrameReader
  import opened UartLine

  const CSIZE: bv32 := 0x30
  const CS5: bv32 := 0x00
  const CS6: bv32 := 0x10
  const CS7: bv32 := 0x20
  const CS8: bv32 := 0x30
  const CSTOPB: bv32 := 0x40
  const PARENB: bv32 := 0x100
  const PARODD: bv32 := 0x200
  const CRTSCTS: bv32 := 0x8000_0000

  /** Packet-mode status bit: the terminal settings were touched. */
  const TIOCPKT_IOCTL: bv8 := 0x40

  /** The settings read with `tcgetattr`: input speed code, control flags, and `EXTPROC`. */
  datatype Tio = Tio(speed: nat, cflag: bv32, extproc: bool)

  /** `speed_to_u32`: the numeric rate of a speed code. */
  type Rates = nat -> u32

  predicate Has(t: Tio, flag: bv32) { t.cflag & flag == flag }

  datatype Change = Change(baudrate: u32, dataBits: byte, parity: byte, stopBits: byte, hwFlowCtl: bool)

  function Render(rates: Rates, t: Tio): Change {
    Change(
      rates(t.speed),
      var size := t.cflag & CSIZE;
      if size == CS5 then 5 else if size == CS6 then 6 else if size == CS7 then 7 else if size == CS8 then 8 else 0,
      if Has(t, PARENB) && Has(t, PARODD) then 1 else if Has(t, PARENB) && !Has(t, PARODD) then 2 else 0,
      if Has(t, CSTOPB) then 2 else 1,
      Has(t, CRTSCTS))
  }

  predicate Changed(was: Tio, now: Tio) {
    || was.speed != now.speed
    || was.cflag & CSIZE != now.cflag & CSIZE
    || was.cflag & (PARENB | PARODD) != now.cflag & (PARENB | PARODD)
    || was.cflag & CRTSCTS != now.cflag & CRTSCTS
    || was.cflag & CSTOPB != now.cflag & CSTOPB
  }

  lemma MaskedBits(a: bv32, b: bv32)
    requires a & 0x300 == b & 0x300
    ensures a & 0x100 == b & 0x100 && a & 0x200 == b & 0x200
  {
    assert a & 0x100 == (a & 0x300) & 0x100 && b & 0x100 == (b & 0x300) & 0x100;
    assert a & 0x200 == (a & 0x300) & 0x200 && b & 0x200 == (b & 0x300) & 0x200;
  }

  /** A difference that goes unreported cannot alter what would be reported. */
  lemma UnreportedIsInvisible(rates: Rates, was: Tio, now: Tio)
    requires !Changed(was, now)
    ensures Render(rates, was) == Render(rates, now)
  {
    assert PARENB | PARODD == 0x300;
    MaskedBits(was.cflag, now.cflag);
  }

  lemma SizeIsOneOfFour(f: bv32)
    ensures f & CSIZE == CS5 || f & CSIZE == CS6 || f & CSIZE == CS7 || f & CSIZE == CS8
  {
  }

  predicate Legal(c: Change) { IsFormat(c.dataBits, c.stopBits, c.parity) }

  /** The error value 0 for the data bits is never produced. */
  lemma RenderIsLegal(rates: Rates, t: Tio)
    ensures Legal(Render(rates, t))
  {
    SizeIsOneOfFour(t.cflag);
  }

  /** The message a change is sent as. */
  function ConfigOf(c: Change): (m: DeviceMessage)
    ensures m.Config?
  {
    Config(c.baudrate, c.dataBits, c.stopBits, c.parity, c.hwFlowCtl)
  }

  /** A reported change, sent and applied, sets exactly the line the terminal asked for. */
  lemma ReportedChangeIsApplied(rates: Rates, t: Tio, line: Line, allowFlow: bool)
    ensures var c := Render(rates, t);
            var after := Applied(line, ConfigFieldsOf(FrameOf(ConfigOf(c)).body), allowFlow);
            && after.baudrate == rates(t.speed)
            && SettingsOf(after) == (c.dataBits as int, c.stopBits as int, c.parity as int)
            && after.flow == (if allowFlow then Has(t, CRTSCTS) else line.flow)
  {
    var c := Render(rates, t);
    RenderIsLegal(rates, t);
    ConfigFieldsAgree(ConfigOf(c));
    AppliedIffInRange(line, ConfigFieldsOf(FrameOf(ConfigOf(c)).body), allowFlow);
  }

  /**
    From the bits of the terminal's control flags to the UART: whatever was set before, a reported
    change, sent and applied, leaves the character size, stop bits, parity and flow control that the
    bits ask for.
   */
  lemma BitsReachTheLine(rates: Rates, t: Tio, line: Line, allowFlow: bool)
    ensures var after := Applied(line, ConfigFieldsOf(FrameOf(ConfigOf(Render(rates, t))).body), allowFlow);
            && after.baudrate == rates(t.speed)
            && (after.word == Bits5 <==> t.cflag & 0x30 == 0x00) && (after.word == Bits6 <==> t.cflag & 0x30 == 0x10)
            && (after.word == Bits7 <==> t.cflag & 0x30 == 0x20) && (after.word == Bits8 <==> t.cflag & 0x30 == 0x30)
            && (after.stop == Two <==> t.cflag & 0x40 != 0)
            && (after.parity == Disabled <==> t.cflag & 0x100 == 0)
            && (after.parity == Odd <==> t.cflag & 0x100 != 0 && t.cflag & 0x200 != 0)
            && (after.parity == Even <==> t.cflag & 0x100 != 0 && t.cflag & 0x200 == 0)
            && (allowFlow ==> (after.flow <==> t.cflag & 0x8000_0000 != 0)) && (!allowFlow ==> after.flow == line.flow)
  {
    ConfigFieldsAgree(ConfigOf(Render(rates, t)));
    SizeIsOneOfFour(t.cflag);
    SingleBits(t.cflag);
  }

  lemma SingleBits(f: bv32)
    ensures f & 0x40 == 0 || f & 0x40 == 0x40
    ensures f & 0x100 == 0 || f & 0x100 == 0x100
    ensures f & 0x200 == 0 || f & 0x200 == 0x200
    ensures f & 0x8000_0000 == 0 || f & 0x8000_0000 == 0x8000_0000
  {
  }

  /** A change is seen exactly when the speed or one of the bits that reach the line differs. */
  lemma ChangedIff(was: Tio, now: Tio)
    ensures Changed(was, now) <==> was.speed != now.speed || was.cflag & 0x8000_0370 != now.cflag & 0x8000_0370
  {
    var a, b := was.cflag, now.cflag;
    MaskParts(a);
    MaskParts(b);
    if a & 0x8000_0370 == b & 0x8000_0370 {
      SameMask(a, b);
    }
  }

  lemma MaskParts(a: bv32)
    ensures a & 0x8000_0370 == (a & 0x30) | (a & 0x40) | (a & 0x300) | (a & 0x8000_0000)
  {
  }

  lemma SameMask(a: bv32, b: bv32)
    requires a & 0x8000_0370 == b & 0x8000_0370
    ensures a & 0x30 == b & 0x30 && a & 0x40 == b & 0x40 && a & 0x300 == b & 0x300 && a & 0x8000_0000 == b & 0x8000_0000
  {
    assert a & 0x30 == (a & 0x8000_0370) & 0x30 && b & 0x30 == (b & 0x8000_0370) & 0x30;
    assert a & 0x40 == (a & 0x8000_0370) & 0x40 && b & 0x40 == (b & 0x8000_0370) & 0x40;
    assert a & 0x300 == (a & 0x8000_0370) & 0x300 && b & 0x300 == (b & 0x8000_0370) & 0x300;
    assert a & 0x8000_0000 == (a & 0x8000_0370) & 0x8000_0000 && b & 0x8000_0000 == (b & 0x8000_0370) & 0x8000_0000;
  }

  // ---------------------------------------------------------------- reading packets

  /**
    One wake-up of the master side: a packet (control byte, data, and the settings `tcgetattr`
    would show, before and after `EXTPROC` is put back, or a failed call), or no packet.
   */
  datatype Packet =
    | Packet(ctrl: bv8, data: seq<byte>, settings: Option<Tio>, refreshed: Option<Tio>)
    | Eof
    | WouldBlock
    | Failure

  datatype ReadResult = GotData(bytes: seq<byte>) | GotChange(change: Change) | GotControl(ctrl: bv8) | ReadError

  /** The settings an ioctl packet leads to, if the calls succeed. */
  function Observed(p: Packet): Option<Tio>
    requires p.Packet?
  {
    if p.settings.None? then None
    else if p.settings.value.extproc then p.settings
    else p.refreshed
  }

  predicate IsIoctl(p: Packet) { p.Packet? && p.ctrl != 0 && p.ctrl & TIOCPKT_IOCTL != 0 }

  /** What one packet does to the remembered settings. */
  function TioAfter(tio: Tio, p: Packet): Tio {
    if IsIoctl(p) && Observed(p).Some? && Changed(tio, Observed(p).value) then Observed(p).value else tio
  }

  /** What one packet makes `read` return, if it makes it return. */
  function ResultOf(rates: Rates, tio: Tio, p: Packet, room: nat): Option<ReadResult> {
    match p
    case Eof => Some(ReadError)
    case WouldBlock => None
    case Failure => Some(ReadError)
    case Packet(ctrl, data, _, _) =>
      if ctrl == 0 then
        if data == [] || room == 0 then None
        else Some(GotData(if |data| <= room then data else data[..room]))
      else if ctrl & TIOCPKT_IOCTL != 0 then
        if Observed(p).None? then Some(ReadError)
        else if Changed(tio, Observed(p).value) then Some(GotChange(Render(rates, Observed(p).value)))
        else None
      else Some(GotControl(ctrl))
  }

  /**
    What `read` returns, by the packet's control byte: bit 0x40 alone says that settings were touched,
    and those that count are the ones shown with `EXTPROC` set.
   */
  lemma ResultByControlByte(rates: Rates, tio: Tio, p: Packet, room: nat, seen: Option<Tio>)
    requires p.Packet? && room > 0
    requires seen == if p.settings.Some? && !p.settings.value.extproc then p.refreshed else p.settings
    ensures var r := ResultOf(rates, tio, p, room);
            && (r == None <==> (p.ctrl == 0 && p.data == [])
                               || (p.ctrl & 0x40 != 0 && seen.Some? && tio.speed == seen.value.speed
                                   && tio.cflag & 0x8000_0370 == seen.value.cflag & 0x8000_0370))
            && (r.Some? ==>
                 && (r.value.GotData? <==> p.ctrl == 0)
                 && (r.value.GotControl? <==> p.ctrl != 0 && p.ctrl & 0x40 == 0) && (r.value.GotControl? ==> r.value.ctrl == p.ctrl)
                 && (r.value.ReadError? <==> p.ctrl & 0x40 != 0 && seen == None)
                 && (r.value.GotData? ==> r.value.bytes <= p.data && |r.value.bytes| == if |p.data| < room then |p.data| else room)
                 && (r.value.GotChange? ==> r.value.change == Render(rates, seen.value)))
  {
    hide Changed, Render;
    if p.ctrl & 0x40 != 0 && seen.Some? {
      ChangedIff(tio, seen.value);
    }
  }

  /** The settings last seen, whether or not they were reported. */
  function LastSeen(initial: Tio, packets: seq<Packet>): Tio
    decreases |packets|
  {
    if packets == [] then initial
    else
      var p := packets[|packets| - 1];
      if IsIoctl(p) && Observed(p).Some? then Observed(p).value
      else LastSeen(initial, packets[..|packets| - 1])
  }

  function Remembered(initial: Tio, packets: seq<Packet>): Tio
    decreases |packets|
  {
    if packets == [] then initial
    else TioAfter(Remembered(initial, packets[..|packets| - 1]), packets[|packets| - 1])
  }

  /** The changes reported over a whole run of packets. */
  function Reported(rates: Rates, initial: Tio, packets: seq<Packet>, room: nat): seq<Change>
    decreases |packets|
  {
    if packets == [] then []
    else
      var before := packets[..|packets| - 1];
      var r := ResultOf(rates, Remembered(initial, before), packets[|packets| - 1], room);
      Reported(rates, initial, before, room) + if r.Some? && r.value.GotChange? then [r.value.change] else []
  }

  /**
    Never stale: over any run of packets, the settings last seen render as the last reported
    change, or as the initial settings when none was reported; and every report is legal.
   */
  lemma {:induction false} ReportsAreNeverStale(rates: Rates, initial: Tio, packets: seq<Packet>, room: nat)
    ensures var reported := Reported(rates, initial, packets, room);
            Render(rates, LastSeen(initial, packets)) ==
            if reported == [] then Render(rates, initial) else reported[|reported| - 1]
    ensures Render(rates, Remembered(initial, packets)) == Render(rates, LastSeen(initial, packets))
    ensures forall c <- Reported(rates, initial, packets, room) :: Legal(c)
    decreases |packets|
  {
    if packets != [] {
      var before, p := packets[..|packets| - 1], packets[|packets| - 1];
      ReportsAreNeverStale(rates, initial, before, room);
      if IsIoctl(p) && Observed(p).Some? {
        var seen := Observed(p).value;
        if Changed(Remembered(initial, before), seen) {
          RenderIsLegal(rates, seen);
        } else {
          UnreportedIsInvisible(rates, Remembered(initial, before), seen);
        }
      }
    }
  }

  /** The data bytes still to be read from a queue of wake-ups. */
  function PtyBytes(packets: seq<Packet>): seq<byte> {
    if packets == [] then []
    else (if packets[0].Packet? && packets[0].ctrl == 0 then packets[0].data else []) + PtyBytes(packets[1..])
  }

  function BytesIn(r: Option<ReadResult>): seq<byte> {
    if r.Some? && r.value.GotData? then r.value.bytes else []
  }

  lemma PtyBytesOne(p: Packet)
    ensures PtyBytes([p]) == if p.Packet? && p.ctrl == 0 then p.data else []
  {
    assert PtyBytes([p][1..]) == [];
  }

  lemma PtyBytesCons(packets: seq<Packet>)
    requires packets != []
    ensures PtyBytes(packets) == PtyBytes([packets[0]]) + PtyBytes(packets[1..])
  {
    PtyBytesOne(packets[0]);
  }

  /** The master side as it is read: `inbox` holds the wake-ups to come. */
  class AsyncPty {
    const rates: Rates
    var currentTio: Tio
    var inbox: seq<Packet>

    constructor (rates: Rates, tio: Tio, inbox: seq<Packet>)
      ensures this.rates == rates && currentTio == tio && this.inbox == inbox
    {
      this.rates, currentTio, this.inbox := rates, tio, inbox;
    }

    /** The branches of `read` on one wake-up. Data beyond the buffer goes back in the queue. */
    method Handle(p: Packet, buf: array<byte>) returns (r: Option<ReadResult>)
      requires buf.Length > 0
      modifies this, buf
      ensures r == ResultOf(rates, old(currentTio), p, buf.Length)
      ensures currentTio == TioAfter(old(currentTio), p)
      ensures PtyBytes([p]) + PtyBytes(old(inbox)) == BytesIn(r) + PtyBytes(inbox)
      ensures r == None ==> inbox == old(inbox)
      ensures |BytesIn(r)| <= buf.Length && buf[..|BytesIn(r)|] == BytesIn(r)
    {
      hide Changed, Render;
      PtyBytesOne(p);
      match p {
        case Eof => return Some(ReadError);
        case WouldBlock => return None;
        case Failure => return Some(ReadError);
        case Packet(ctrl, data, settings, refreshed) =>
          if ctrl == 0 {
            if data == [] { return None; }
            var n := if |data| <= buf.Length then |data| else buf.Length;
            forall i | 0 <= i < n {
              buf[i] := data[i];
            }
            assert buf[..n] == data[..n];
            assert data[..n] + data[n..] == data;
            Associates(data[..n], data[n..], PtyBytes(inbox));
            if n < |data| {
              inbox := [p.(data := data[n..])] + inbox;
            }
            return Some(GotData(data[..n]));
          } else if ctrl & TIOCPKT_IOCTL != 0 {
            if settings == None { return Some(ReadError); }
            var newTio := settings.value;
            if !newTio.extproc {
              if refreshed == None { return Some(ReadError); }
              newTio := refreshed.value;
            }
            if Changed(currentTio, newTio) {
              currentTio := newTio;
              return Some(GotChange(Render(rates, currentTio)));
            }
            return None;
          } else {
            return Some(GotControl(ctrl));
          }
      }
    }

    /**
      `read`: take wake-ups until one of them is worth returning. `taken` are the ones used up;
      with none left to return on, the call is still waiting. No byte is lost or repeated.
     */
    method Read(buf: array<byte>) returns (r: Option<ReadResult>, ghost taken: seq<Packet>)
      requires buf.Length > 0
      modifies this, buf
      ensures taken <= old(inbox)
      ensures currentTio == Remembered(old(currentTio), taken)
      ensures r == None ==> inbox == [] && Reported(rates, old(currentTio), taken, buf.Length) == []
      ensures r.Some? ==> taken != []
      ensures r.Some? ==> Reported(rates, old(currentTio), taken[..|taken| - 1], buf.Length) == []
      ensures r.Some? ==>
                r == ResultOf(rates, Remembered(old(currentTio), taken[..|taken| - 1]), taken[|taken| - 1], buf.Length)
      ensures PtyBytes(old(inbox)) == BytesIn(r) + PtyBytes(inbox)
      ensures |BytesIn(r)| <= buf.Length && buf[..|BytesIn(r)|] == BytesIn(r)
    {
      hide ResultOf, TioAfter, PtyBytes;
      taken, r := [], None;
      while inbox != []
        invariant taken + inbox == old(inbox) && r == None
        invariant PtyBytes(inbox) == PtyBytes(old(inbox))
        invariant currentTio == Remembered(old(currentTio), taken)
        invariant Reported(rates, old(currentTio), taken, buf.Length) == []
        decreases |inbox|
      {
        var p := inbox[0];
        PtyBytesCons(inbox);
        inbox := inbox[1..];
        r := Handle(p, buf);
        ghost var before := taken;
        taken := taken + [p];
        assert taken[..|taken| - 1] == before;
        if r.Some? { return; }
      }
      assert taken + [] == taken;
    }
  }
}
