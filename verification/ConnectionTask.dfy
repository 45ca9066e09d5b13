/**
  The connection task and its bridge as the objects they are: `TcpBridge` (daemon/src/tcp_bridge.rs)
  and `ConnectionTask` (daemon/src/connection.rs), whose `Step` overwrites fields in place. Each
  step is proved to be the corresponding step of ConnProtocol, and the bytes on the wire, in the
  receive buffer and at the pseudo-terminal are tied to the history.
 */
module ConnectionTask {
  import opened Bytes
  import opened Streams
  import opened DeviceCodec
  import opened Termios
  import opened ConnProtocol
  import ConnEvents

  /** A framed stream: bytes received and not yet decoded, and bytes handed to the socket. */
  datatype Wire = Wire(inBuf: seq<byte>, out: seq<byte>)

  class TcpBridge {
    var framed: Option<Wire>

    constructor ()
      ensures framed == None
    {
      framed := None;
    }

    method Send(m: DeviceMessage, send: Send) returns (ok: bool)
      requires CanCut(m, send)
      modifies this
      ensures old(framed) == None ==> !ok && framed == None
      ensures old(framed).Some? && send.Fails? ==> !ok && framed == None
      ensures old(framed).Some? && send.Ok? ==>
                ok && framed == Some(old(framed).value.(out := old(framed).value.out + Encode(m)))
    {
      if framed == None {
        return false;
      }
      match send {
        case Ok =>
          framed := Some(framed.value.(out := framed.value.out + Encode(m)));
          return true;
        case Fails(_) =>
          framed := None;
          return false;
      }
    }

    /** Dropping a `send` half way leaves the beginning of its frame behind. */
    method AbandonSend(m: DeviceMessage, cut: nat)
      requires framed.Some? && cut < |Encode(m)|
      modifies this
      ensures framed == Some(old(framed).value.(out := old(framed).value.out + Encode(m)[..cut]))
    {
      framed := Some(framed.value.(out := framed.value.out + Encode(m)[..cut]));
    }

    /** The socket has bytes: they go behind what is buffered. */
    method Receive(chunk: seq<byte>)
      requires framed.Some?
      modifies this
      ensures framed == Some(old(framed).value.(inBuf := old(framed).value.inBuf + chunk))
    {
      framed := Some(framed.value.(inBuf := framed.value.inBuf + chunk));
    }

    /** `next`, once it is ready: a message, or the end of the stream, which drops the stream. */
    method Next() returns (r: Option<DeviceMessage>)
      modifies this
      ensures old(framed) == None ==> r == None && framed == None
      ensures old(framed).Some? ==>
                match Decode(old(framed).value.inBuf)
                case Item(m, n) => r == Some(m) && framed == Some(old(framed).value.(inBuf := old(framed).value.inBuf[n..]))
                case _ => r == None && framed == None
    {
      if framed == None {
        return None;
      }
      DecodeIsLawful();
      match Decode(framed.value.inBuf) {
        case Item(m, n) =>
          framed := Some(framed.value.(inBuf := framed.value.inBuf[n..]));
          return Some(m);
        case _ =>
          framed := None;
          return None;
      }
    }

    method TryConnect(connects: bool) returns (ok: bool)
      modifies this
      ensures ok <==> old(framed).Some? || connects
      ensures framed == if old(framed).Some? then old(framed) else if connects then Some(Wire([], [])) else None
    {
      if framed.Some? {
        return true;
      }
      if connects {
        framed := Some(Wire([], []));
      }
      return connects;
    }
  }

  /** The bytes the current session has been handed, by the history. */
  function WireOf(h: seq<Action>): seq<byte>
    decreases |h|
  {
    if h == [] then []
    else
      var before := WireOf(h[..|h| - 1]);
      match h[|h| - 1]
      case Opened => []
      case Accepted(m, _) => before + Encode(m)
      case Torn(m, _, cut) => before + if cut <= |Encode(m)| then Encode(m)[..cut] else []
      case _ => before
  }

  /** The messages the current session has decoded, by the history. */
  function DecodedOf(h: seq<Action>): seq<DeviceMessage>
    decreases |h|
  {
    if h == [] then []
    else
      var before := DecodedOf(h[..|h| - 1]);
      match h[|h| - 1]
      case Opened => []
      case Decoded(m) => before + [m]
      case _ => before
  }

  function AnswersView(a: Action): seq<(nat, Reply)> { if a.Answered? then [(a.id, a.reply)] else [] }

  lemma Snoc(h: seq<Action>, a: Action)
    ensures (h + [a])[..|h|] == h && (h + [a])[|h|] == a
  {
  }

  /** The views of a history that the fields mirror, after one more action. */
  lemma ViewsSnoc(h: seq<Action>, a: Action)
    ensures Project(h + [a], WrittenView) == Project(h, WrittenView) + WrittenView(a)
    ensures !a.WroteToPty? ==> Project(h + [a], WrittenView) == Project(h, WrittenView)
    ensures Project(h + [a], AnswersView) == Project(h, AnswersView) + AnswersView(a)
    ensures !a.Answered? ==> Project(h + [a], AnswersView) == Project(h, AnswersView)
    ensures !a.Opened? && !a.Accepted? && !a.Torn? ==> WireOf(h + [a]) == WireOf(h)
    ensures !a.Opened? && !a.Decoded? ==> DecodedOf(h + [a]) == DecodedOf(h)
    ensures a.Opened? ==> WireOf(h + [a]) == [] && DecodedOf(h + [a]) == []
    ensures a.Accepted? ==> WireOf(h + [a]) == WireOf(h) + Encode(a.m)
    ensures a.Torn? && a.cut <= |Encode(a.m)| ==> WireOf(h + [a]) == WireOf(h) + Encode(a.m)[..a.cut]
    ensures a.Decoded? ==> DecodedOf(h + [a]) == DecodedOf(h) + [a.m]
  {
    hide Project;
    Snoc(h, a);
    ProjectAppend(h, [a], WrittenView);
    ProjectAppend(h, [a], AnswersView);
    ProjectOne(a, WrittenView);
    ProjectOne(a, AnswersView);
  }

  // ---------------------------------------------------------------- what the surroundings offer

  /** Bytes that arrive, or a branch of the `select!` that could become ready. */
  datatype Offer = Arrives(chunk: seq<byte>) | Occurs(e: Event)

  /** Ready with these bytes buffered: a message is decoded from them, a loss finds none there. */
  predicate Selectable(t: Task, buf: seq<byte>, e: Event) {
    && Can(t, e)
    && (e.Incoming? ==> Decode(buf).Item? && Decode(buf).msg == e.m)
    && (e.LinkLost? && t.linked ==> !Decode(buf).Item?)
  }

  /** The receive buffer after an event: a new session starts empty, a message read is consumed. */
  function BufferAfter(t: Task, buf: seq<byte>, e: Event): seq<byte>
    requires Can(t, e)
  {
    if !t.linked || !React(t, e).0.linked then []
    else if e.Incoming? && Decode(buf).Item? && Decode(buf).used <= |buf| then buf[Decode(buf).used..]
    else buf
  }

  /** A task with its history, its receive buffer and the events it has taken. */
  datatype Life = Life(l: Log, buf: seq<byte>, es: seq<Event>)

  function Offered(x: Life, o: Offer): Life {
    match o
    case Arrives(chunk) => if x.l.t.linked then x.(buf := x.buf + chunk) else x
    case Occurs(e) =>
      if Selectable(x.l.t, x.buf, e) then Life(Advance(x.l, e), BufferAfter(x.l.t, x.buf, e), x.es + [e]) else x
  }

  function LifeOver(offers: seq<Offer>): Life
    decreases |offers|
  {
    if offers == [] then Life(Log(Fresh, []), [], [])
    else Offered(LifeOver(offers[..|offers| - 1]), offers[|offers| - 1])
  }

  lemma ExecNone()
    ensures Exec([]) == Some(Log(Fresh, []))
  {
  }

  lemma ExecNext(es: seq<Event>, l: Log, e: Event)
    requires Exec(es) == Some(l) && Can(l.t, e)
    ensures Exec(es + [e]) == Some(Advance(l, e))
  {
    hide Can, React;
    assert (es + [e])[..|es|] == es;
  }

  /** The events taken make up a run of the machine. */
  lemma {:induction false} LifeIsARun(offers: seq<Offer>)
    ensures Exec(LifeOver(offers).es) == Some(LifeOver(offers).l)
    decreases |offers|
  {
    hide Can, React, Exec, BufferAfter, Decode;
    if offers == [] {
      ExecNone();
    } else {
      var x := LifeOver(offers[..|offers| - 1]);
      LifeIsARun(offers[..|offers| - 1]);
      match offers[|offers| - 1] {
        case Arrives(_) =>
        case Occurs(e) =>
          if Selectable(x.l.t, x.buf, e) {
            ExecNext(x.es, x.l, e);
          }
      }
    }
  }

  class ConnectionTask {
    var state: ConnState
    const tcp: TcpBridge
    var pendingHwCtl: Option<nat>
    var exited: bool
    /** The reply channels used so far, the bytes written to the terminal, the farewells sent. */
    var answers: seq<(nat, Reply)>
    var ptyOut: seq<byte>
    var closedEvents: nat
    ghost var h: seq<Action>
    /** Every byte received in the current session. */
    ghost var arrived: seq<byte>

    ghost predicate Valid()
      reads this, tcp
    {
      LinkMatchesState(Abs()) && closedEvents == (if exited then 1 else 0) && Mirrors()
    }

    /** The fields that mirror the history, and what the session has decoded of what arrived. */
    ghost predicate Mirrors()
      reads this`answers, this`ptyOut, this`h, this`arrived, tcp
    {
      && answers == Project(h, AnswersView)
      && ptyOut == Project(h, WrittenView)
      && (tcp.framed.Some? ==> tcp.framed.value.out == WireOf(h))
      && Lawful(Decode)
      && (tcp.framed.Some? ==>
            Drain(Decode, arrived) == Join(DecodedOf(h), Drain(Decode, tcp.framed.value.inBuf)))
    }

    function Abs(): Task
      reads this, tcp
    {
      Task(state, tcp.framed.Some?, pendingHwCtl, exited)
    }

    constructor ()
      ensures Valid() && fresh(tcp) && Abs() == Fresh && h == []
    {
      state := Reconnecting(INITIAL_RECONNECT_BACKOFF, None);
      tcp := new TcpBridge();
      pendingHwCtl, exited := None, false;
      answers, ptyOut, closedEvents := [], [], 0;
      h, arrived := [], [];
      new;
      DecodeIsLawful();
    }

    function InBuf(): seq<byte>
      reads tcp
    {
      if tcp.framed.Some? then tcp.framed.value.inBuf else []
    }

    predicate Ready(e: Event)
      reads this, tcp
    {
      Selectable(Abs(), InBuf(), e)
    }

    /** Note an action, and keep the fields that mirror the history in step with it. */
    ghost method Note(a: Action)
      modifies this`h
      ensures h == old(h) + [a]
      ensures Project(h, WrittenView) == Project(old(h), WrittenView) + WrittenView(a)
      ensures !a.WroteToPty? ==> Project(h, WrittenView) == Project(old(h), WrittenView)
      ensures Project(h, AnswersView) == Project(old(h), AnswersView) + AnswersView(a)
      ensures !a.Answered? ==> Project(h, AnswersView) == Project(old(h), AnswersView)
      ensures !a.Opened? && !a.Accepted? && !a.Torn? ==> WireOf(h) == WireOf(old(h))
      ensures !a.Opened? && !a.Decoded? ==> DecodedOf(h) == DecodedOf(old(h))
      ensures a.Opened? ==> WireOf(h) == [] && DecodedOf(h) == []
      ensures a.Accepted? ==> WireOf(h) == WireOf(old(h)) + Encode(a.m)
      ensures a.Torn? && a.cut <= |Encode(a.m)| ==> WireOf(h) == WireOf(old(h)) + Encode(a.m)[..a.cut]
      ensures a.Decoded? ==> DecodedOf(h) == DecodedOf(old(h)) + [a.m]
    {
      ViewsSnoc(h, a);
      h := h + [a];
    }

    /** Note an action that no field mirrors. */
    ghost method NoteAside(a: Action)
      requires Mirrors() && (a.Asked? || a.ReadFromPty? || a.Unsolicited? || a.SentClosed?)
      modifies this`h
      ensures Mirrors() && h == old(h) + [a]
    {
      hide Project, WireOf, DecodedOf, Decode, Drain, Join;
      Note(a);
    }

    /** Use a reply channel. */
    method Reply(id: nat, reply: ConnProtocol.Reply)
      requires Mirrors()
      modifies this`answers, this`h
      ensures Mirrors() && h == old(h) + [Answered(id, reply)]
    {
      hide Project, WireOf, DecodedOf, Decode, Drain, Join;
      answers := answers + [(id, reply)];
      Note(Answered(id, reply));
    }

    method FailPendingCtl()
      requires Mirrors()
      modifies this`answers, this`h, this`pendingHwCtl
      ensures Mirrors() && h == old(h) + FailWaiting(old(pendingHwCtl)) && pendingHwCtl == None
    {
      hide Mirrors;
      if pendingHwCtl.Some? {
        Reply(pendingHwCtl.value, Unavailable);
        pendingHwCtl := None;
      } else {
        assert h + [] == h;
      }
    }

    /** `self.tcp.send`, with what it does noted. */
    method Transmit(m: DeviceMessage, tag: nat, send: Send) returns (ok: bool)
      requires Mirrors() && CanCut(m, send)
      modifies this`h, tcp
      ensures Mirrors()
      ensures InBuf() == if tcp.framed.Some? then old(InBuf()) else []
      ensures (ok, tcp.framed.Some?, h) ==
              var (ok, linked, did) := TrySend(old(tcp.framed.Some?), m, tag, send); (ok, linked, old(h) + did)
    {
      hide Project, WireOf, DecodedOf, Encode, Drain, Join, Decode, LinkMatchesState;
      ghost var linked := tcp.framed.Some?;
      ok := tcp.Send(m, send);
      if !linked {
        Note(FoundNoLink);
      } else if ok {
        Note(Accepted(m, tag));
      } else {
        Note(Torn(m, tag, send.cut));
        Note(Dropped);
        assert h == old(h) + [Torn(m, tag, send.cut), Dropped];
      }
    }

    /** A message read from the terminal: send it, or keep it and go offline. */
    method ForwardMessage(m: DeviceMessage, send: Send)
      requires Valid() && state.Connected? && !exited && CanCut(m, send) && !m.ControlReq?
      modifies this, tcp
      ensures Valid()
      ensures InBuf() == if tcp.framed.Some? then old(InBuf()) else []
      ensures Abs() == Forward(old(Abs()), m, send).0 && h == old(h) + Forward(old(Abs()), m, send).1
    {
      hide Mirrors, Encode;
      ghost var waiting, linked := pendingHwCtl, tcp.framed.Some?;
      ghost var did := TrySend(linked, m, 0, send).2;
      NoteAside(ReadFromPty(m));
      var ok := Transmit(m, 0, send);
      assert h == old(h) + ([ReadFromPty(m)] + did);
      if !ok {
        FailPendingCtl();
        state := Reconnecting(INITIAL_RECONNECT_BACKOFF, Some(m));
        assert h == old(h) + ([ReadFromPty(m)] + did + FailWaiting(waiting));
      }
    }

    /** `self.tcp.next`, when a message is there. */
    method TakeMessage() returns (m: DeviceMessage)
      requires Valid() && tcp.framed.Some? && Decode(tcp.framed.value.inBuf).Item?
      modifies this`h, tcp
      ensures Valid() && Abs() == old(Abs())
      ensures Decode(old(InBuf())).used <= |old(InBuf())| && InBuf() == old(InBuf())[Decode(old(InBuf())).used..]
      ensures m == Decode(old(tcp.framed).value.inBuf).msg && h == old(h) + [Decoded(m)]
    {
      hide Project, WireOf, DecodedOf, Decode, Encode, LinkMatchesState;
      ghost var buf := tcp.framed.value.inBuf;
      var next := tcp.Next();
      m := next.value;
      JoinAssociates(DecodedOf(h), [m], Drain(Decode, buf[Decode(buf).used..]));
      Note(Decoded(m));
    }

    /** `self.master.write_all` with what gets through. */
    method WriteToPty(bytes: seq<byte>)
      requires Mirrors()
      modifies this`h, this`ptyOut
      ensures Mirrors() && h == old(h) + [WroteToPty(bytes)]
    {
      hide Project, WireOf, DecodedOf, Decode, Encode, LinkMatchesState, Drain, Join;
      ptyOut := ptyOut + bytes;
      Note(WroteToPty(bytes));
    }

    /** A message from the device. */
    method HandleIncoming(write: Write)
      requires Valid() && state.Connected? && !exited
      requires tcp.framed.Some? && Decode(tcp.framed.value.inBuf).Item?
      requires var m := Decode(tcp.framed.value.inBuf).msg; m.Data? && write.Broken? ==> write.cut < m.size
      modifies this, tcp
      ensures Valid()
      ensures Decode(old(InBuf())).used <= |old(InBuf())| && InBuf() == old(InBuf())[Decode(old(InBuf())).used..]
      ensures var m := Decode(old(tcp.framed).value.inBuf).msg;
              Abs() == Deliver(old(Abs()), m, write).0 && h == old(h) + Deliver(old(Abs()), m, write).1
    {
      hide Mirrors, Decode, Deliver;
      var m := TakeMessage();
      Dispatch(m, write, old(h), Abs());
    }

    /** What is done with a message once it is decoded. */
    method Dispatch(m: DeviceMessage, write: Write, ghost before: seq<Action>, ghost t: Task)
      requires Valid() && state.Connected? && !exited && t == Abs() && h == before + [Decoded(m)]
      requires m.Data? && write.Broken? ==> write.cut < m.size
      modifies this
      ensures Valid() && Abs() == Deliver(t, m, write).0 && h == before + Deliver(t, m, write).1
    {
      hide Mirrors;
      match m {
        case Data(size, body) =>
          match write {
            case Written =>
              WriteToPty(body[..size]);
              assert h == before + [Decoded(m), WroteToPty(body[..size])];
            case Broken(cut) =>
              WriteToPty(body[..cut]);
              state := ShuttingDown;
              assert h == before + [Decoded(m), WroteToPty(body[..cut])];
          }
        case ControlRes(res) =>
          if pendingHwCtl.Some? {
            var id := pendingHwCtl.value;
            pendingHwCtl := None;
            Reply(id, Answer(res));
            assert h == before + [Decoded(m), Answered(id, Answer(res))];
          } else {
            NoteAside(Unsolicited(res));
            assert h == before + [Decoded(m), Unsolicited(res)];
          }
        case _ =>
      }
    }

    method HandleLinkLost()
      requires Valid() && state.Connected? && !exited
      requires tcp.framed.Some? ==> !Decode(tcp.framed.value.inBuf).Item?
      modifies this, tcp
      ensures Valid()
      ensures Abs() == Task(Reconnecting(INITIAL_RECONNECT_BACKOFF, None), false, None, false)
      ensures h == old(h) + ([Dropped] + FailWaiting(old(pendingHwCtl)))
    {
      hide Project, WireOf, DecodedOf, Decode, Drain;
      var next := tcp.Next();
      Note(Dropped);
      FailPendingCtl();
      state := Reconnecting(INITIAL_RECONNECT_BACKOFF, None);
      assert h == old(h) + ([Dropped] + FailWaiting(old(pendingHwCtl)));
    }

    method HandleHwRequest(id: nat, req: ControlRequest, send: Send)
      requires Valid() && state.Connected? && !exited && CanCut(ControlReq(req), send)
      modifies this, tcp
      ensures Valid()
      ensures InBuf() == if tcp.framed.Some? then old(InBuf()) else []
      ensures Abs() == ReactConnected(old(Abs()), HwRequest(id, req, send)).0
      ensures h == old(h) + ReactConnected(old(Abs()), HwRequest(id, req, send)).1
    {
      hide Mirrors, Encode, FromBytes, ConfigOf, Forward, Deliver;
      NoteAside(Asked(id));
      if pendingHwCtl.Some? {
        Reply(id, Unavailable);
        assert h == old(h) + [Asked(id), Answered(id, Unavailable)];
        return;
      }
      ghost var did := TrySend(tcp.framed.Some?, ControlReq(req), id, send).2;
      var ok := Transmit(ControlReq(req), id, send);
      assert h == old(h) + ([Asked(id)] + did);
      if ok {
        pendingHwCtl := Some(id);
      } else {
        Reply(id, Unavailable);
        state := Reconnecting(INITIAL_RECONNECT_BACKOFF, None);
        assert h == old(h) + ([Asked(id)] + did + [Answered(id, Unavailable)]);
      }
    }

    /** A request that is answered on the spot. */
    method AnswerAtOnce(id: nat, reply: ConnProtocol.Reply)
      requires Valid()
      modifies this`answers, this`h
      ensures Valid() && h == old(h) + [Asked(id), Answered(id, reply)]
    {
      hide Mirrors;
      NoteAside(Asked(id));
      Reply(id, reply);
      assert h == old(h) + [Asked(id), Answered(id, reply)];
    }

    method StepConnected(e: Event)
      requires Valid() && Ready(e) && state.Connected?
      modifies this, tcp
      ensures Valid()
      ensures InBuf() == BufferAfter(old(Abs()), old(InBuf()), e)
      ensures Abs() == React(old(Abs()), e).0 && h == old(h) + React(old(Abs()), e).1
    {
      hide Mirrors, Encode, FromBytes, ConfigOf, Decode, Forward, Deliver;
      match e {
        case Shutdown(_) => state := ShuttingDown;
        case PtyChange(c, send) => ForwardMessage(ConfigOf(c), send);
        case PtyData(bytes, send) => ForwardMessage(FromBytes(bytes), send);
        case PtyControl(_) =>
        case PtyError => state := ShuttingDown;
        case Incoming(_, write) => HandleIncoming(write);
        case LinkLost => HandleLinkLost();
        case HwRequest(id, req, send) => HandleHwRequest(id, req, send);
        case StatusRequest(id) => AnswerAtOnce(id, Status(true));
        case RequestsClosed(_) => state := ShuttingDown;
      }
      assert old(h) + [] == old(h);
    }

    /** A connection has just been made: nothing sent, received or decoded in it. */
    ghost method StartSession()
      requires answers == Project(h, AnswersView) && ptyOut == Project(h, WrittenView)
      requires tcp.framed == Some(Wire([], [])) && Lawful(Decode)
      modifies this`h, this`arrived
      ensures Mirrors() && h == old(h) + [Opened]
    {
      hide Project, WireOf, DecodedOf, Decode, Drain;
      Note(Opened);
      arrived := [];
      JoinNothing(Drain(Decode, arrived));
    }

    /** The sleep is over: try to connect, and resync or wait longer. */
    method Reconnect(connects: bool)
      requires Valid() && state.Reconnecting? && !exited
      modifies this, tcp
      ensures Valid()
      ensures InBuf() == []
      ensures Abs() == React(old(Abs()), SleepElapsed(connects)).0
      ensures h == old(h) + React(old(Abs()), SleepElapsed(connects)).1
    {
      hide Project, WireOf, DecodedOf, Encode, Decode, NextBackoff, Drain, Join;
      var backoff, pending := state.backoff, state.pending;
      var ok := tcp.TryConnect(connects);
      if ok {
        StartSession();
        state := if pending.Some? then Resyncing(pending.value) else Connected;
      } else {
        state := Reconnecting(NextBackoff(backoff), pending);
        assert old(h) + [] == old(h);
      }
    }

    method StepReconnecting(e: Event)
      requires Valid() && Ready(e) && state.Reconnecting?
      modifies this, tcp
      ensures Valid()
      ensures InBuf() == BufferAfter(old(Abs()), old(InBuf()), e)
      ensures Abs() == React(old(Abs()), e).0 && h == old(h) + React(old(Abs()), e).1
    {
      hide Mirrors, NextBackoff;
      match e {
        case HwRequest(id, _, _) => AnswerAtOnce(id, Unavailable);
        case StatusRequest(id) => AnswerAtOnce(id, Status(false));
        case SleepElapsed(connects) => Reconnect(connects);
        case Shutdown(_) => state := ShuttingDown;
        case RequestsClosed(_) => state := ShuttingDown;
      }
      assert old(h) + [] == old(h);
    }

    /** The send of the retained message is dropped half way. */
    method Abandon(m: DeviceMessage, cut: nat)
      requires Mirrors() && tcp.framed.Some? && cut < |Encode(m)|
      modifies this`h, tcp
      ensures Mirrors() && tcp.framed.Some? && InBuf() == old(InBuf()) && h == old(h) + [Torn(m, 0, cut)]
    {
      hide Project, WireOf, DecodedOf, Encode, Decode, Drain, Join;
      tcp.AbandonSend(m, cut);
      Note(Torn(m, 0, cut));
    }

    method StepResyncing(e: Event)
      requires Valid() && Ready(e) && state.Resyncing?
      modifies this, tcp
      ensures Valid()
      ensures InBuf() == BufferAfter(old(Abs()), old(InBuf()), e)
      ensures Abs() == React(old(Abs()), e).0 && h == old(h) + React(old(Abs()), e).1
    {
      hide Mirrors, Encode, Decode;
      var m := state.message;
      match e {
        case HwRequest(id, _, _) => AnswerAtOnce(id, Unavailable);
        case StatusRequest(id) => AnswerAtOnce(id, Status(false));
        case ResyncDone(send) =>
          var ok := Transmit(m, 0, send);
          state := if ok then Connected else Reconnecting(INITIAL_RECONNECT_BACKOFF, Some(m));
        case Shutdown(cut) =>
          Abandon(m, cut);
          state := ShuttingDown;
        case RequestsClosed(cut) =>
          Abandon(m, cut);
          state := ShuttingDown;
      }
    }

    /** `shutdown`: refuse who still waits and tell the daemon. */
    method FinishUp()
      requires Valid() && state.ShuttingDown? && !exited
      modifies this
      ensures Valid()
      ensures Abs() == React(old(Abs()), Finish).0 && h == old(h) + React(old(Abs()), Finish).1
    {
      hide Mirrors;
      ghost var waiting := pendingHwCtl;
      FailPendingCtl();
      NoteAside(SentClosed);
      closedEvents := closedEvents + 1;
      exited := true;
      assert h == old(h) + (FailWaiting(waiting) + [SentClosed]);
    }

    /** One branch of the `select!` of the current state. */
    method Step(e: Event)
      requires Valid() && Ready(e)
      modifies this, tcp
      ensures Valid()
      ensures InBuf() == BufferAfter(old(Abs()), old(InBuf()), e)
      ensures Abs() == React(old(Abs()), e).0 && h == old(h) + React(old(Abs()), e).1
      ensures e.Shutdown? || e.RequestsClosed? || e.PtyError? || old(state).ShuttingDown? ==> state.ShuttingDown?
      ensures old(state).ShuttingDown? ==> exited && closedEvents == 1
      ensures e.StatusRequest? ==>
                answers == old(answers) + [(e.id, Status(old(state).Connected?))] && state == old(state) && ptyOut == old(ptyOut)
    {
      hide React, Mirrors;
      ghost var t, before, told, written := Abs(), h, answers, ptyOut;
      MirrorsSay();
      EventLaws(e);
      match state {
        case Connected => StepConnected(e);
        case Reconnecting(_, _) => StepReconnecting(e);
        case Resyncing(_) => StepResyncing(e);
        case ShuttingDown => FinishUp();
      }
      if e.StatusRequest? {
        StatusNoted(before, told, written, t, e.id);
      }
    }

    lemma MirrorsSay()
      requires Mirrors()
      ensures answers == Project(h, AnswersView) && ptyOut == Project(h, WrittenView)
    {
      hide Project, WireOf, DecodedOf, Decode, Drain, Join;
    }

    lemma EventLaws(e: Event)
      requires Can(Abs(), e)
      ensures var u := React(Abs(), e).0;
              && (e.Shutdown? || e.RequestsClosed? || e.PtyError? || state.ShuttingDown? ==> u.state.ShuttingDown?)
              && (state.ShuttingDown? ==> u.done)
      ensures e.StatusRequest? ==> React(Abs(), e) == (Abs(), [Asked(e.id), Answered(e.id, Status(state.Connected?))])
    {
      hide React;
      if state.ShuttingDown? {
        ConnEvents.OnlyTheEndIsLeft(Abs(), e);
      } else if e.Shutdown? || e.RequestsClosed? || e.PtyError? {
        ConnEvents.OnceTold(Abs(), e);
      } else if e.StatusRequest? {
        ConnEvents.StatusIsTrue(Abs(), e.id);
      }
    }

    lemma StatusNoted(before: seq<Action>, told: seq<(nat, ConnProtocol.Reply)>, written: seq<byte>, t: Task, id: nat)
      requires Mirrors() && h == before + [Asked(id), Answered(id, Status(t.state.Connected?))]
      requires told == Project(before, AnswersView) && written == Project(before, WrittenView)
      ensures answers == told + [(id, Status(t.state.Connected?))] && ptyOut == written
    {
      hide Project, WireOf, DecodedOf, Decode, Drain, Join;
      var did := [Asked(id), Answered(id, Status(t.state.Connected?))];
      ProjectAppend(before, did, AnswersView);
      ProjectAppend(before, did, WrittenView);
      ProjectShort(did, AnswersView);
      ProjectShort(did, WrittenView);
    }

    /** Bytes arrive on the session; what it has decoded stays a prefix of what they decode to. */
    method Receive(chunk: seq<byte>)
      requires Valid() && tcp.framed.Some?
      modifies tcp, this`arrived
      ensures Valid() && Abs() == old(Abs()) && h == old(h) && arrived == old(arrived) + chunk
      ensures InBuf() == old(InBuf()) + chunk
    {
      hide Project, WireOf, DecodedOf, Decode, Drain;
      ghost var buf := tcp.framed.value.inBuf;
      DrainInTwo(Decode, arrived, chunk);
      DrainInTwo(Decode, buf, chunk);
      ResumeJoins(Decode, DecodedOf(h), Drain(Decode, buf), chunk);
      tcp.Receive(chunk);
      arrived := arrived + chunk;
    }

    /** What the session has decoded is the beginning of what its bytes decode to. */
    lemma DecodedInOrder()
      requires Valid()
      ensures tcp.framed.Some? ==> DecodedOf(h) <= Drain(Decode, arrived).msgs
      ensures ptyOut == Project(h, WrittenView)
    {
      hide Project, WireOf, DecodedOf, Decode, Drain;
    }

    /**
      The task's life, over whatever its surroundings offer: of the bytes and events offered it
      takes exactly those that are possible when their turn comes. The events taken are a run of
      the machine, so every law of ConnProtocol over runs holds of the object.
     */
    method ConnTask(offers: seq<Offer>) returns (ghost es: seq<Event>)
      requires Valid() && Abs() == Fresh && h == []
      modifies this, tcp
      ensures Valid() && Life(Log(Abs(), h), InBuf(), es) == LifeOver(offers)
      ensures Exec(es) == Some(Log(Abs(), h)) && ConnProtocol.Inv(Log(Abs(), h))
      ensures ptyOut <= Project(h, PayloadView) && closedEvents == (if exited then 1 else 0)
      ensures tcp.framed.Some? ==> DecodedOf(h) <= Drain(Decode, arrived).msgs
    {
      hide React, Mirrors, Can, Project, WireOf, DecodedOf, Decode, Drain, Join, Exec, BufferAfter, LinkMatchesState;
      es := [];
      assert offers[..0] == [];
      for i := 0 to |offers|
        invariant Valid() && Life(Log(Abs(), h), InBuf(), es) == LifeOver(offers[..i])
      {
        assert offers[..i + 1][..i] == offers[..i];
        match offers[i] {
          case Arrives(chunk) =>
            if tcp.framed.Some? {
              Receive(chunk);
            }
          case Occurs(e) =>
            if Ready(e) {
              Step(e);
              es := es + [e];
            }
        }
      }
      assert offers[..|offers|] == offers;
      LifeIsARun(offers);
      InvOverRuns(es);
      InboundIsRefined(Log(Abs(), h));
      DecodedInOrder();
    }
  }
}
