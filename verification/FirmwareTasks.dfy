/**
  The code of the firmware's tasks: `tcp_task` with `handle_client` (server/main/tcp.c),
  `uart_rx_task` and `uart_tx_task` (server/main/uart.c), loops, early returns and all, over the
  objects they share: two bounded queues, an eventfd, the UART and the client's socket.

  A task keeps what it works on in locals, and has saved where it stands whenever it waits. A
  schedule says whose turn it is and how calls turn out; at every waiting point the other tasks may
  move. The contracts say that, under every schedule, what the code does to the shared objects is
  what the machine of Firmware does, so what is proved of the machine's runs holds of the objects.
 */
module FirmwareTasks {
  import opened Bytes
  import opened FrameReader
  import opened UartLine
  import opened Firmware

  /** A FreeRTOS queue. */
  class Queue {
    const depth: nat
    var items: seq<Msg>

    constructor (depth: nat)
      ensures this.depth == depth && items == []
    {
      this.depth := depth;
      items := [];
    }

    /** `xQueueSend`, once there is room. */
    method Send(m: Msg)
      requires |items| < depth
      modifies this
      ensures items == old(items) + [m]
    {
      items := items + [m];
    }

    /** `xQueueReceive`, once there is an item. */
    method Receive() returns (m: Msg)
      requires items != []
      modifies this
      ensures [m] + items == old(items)
    {
      m := items[0];
      items := items[1..];
    }
  }

  class EventFd {
    var value: nat

    constructor ()
      ensures value == 0
    {
      value := 0;
    }

    method Write(n: nat)
      modifies this
      ensures value == old(value) + n
    {
      value := value + n;
    }

    /** Reading hands the count over and resets it. */
    method Read() returns (n: nat)
      modifies this
      ensures n == old(value) && value == 0
    {
      n := value;
      value := 0;
    }
  }

  datatype TaskId = Tcp | UartRx | UartTx

  function TaskOf(a: Act): TaskId {
    match a
    case UartChunk(_) => UartRx
    case RxPush => UartRx
    case RxNotify => UartRx
    case TxTake => UartTx
    case TxHandle => UartTx
    case TxPush => UartTx
    case TxNotify => UartTx
    case _ => Tcp
  }

  /** Play a schedule: a turn that is not possible when it comes is passed over. */
  function Play(s: Fw, turns: seq<Act>): Fw
    decreases |turns|
  {
    if turns == [] then s else Play(if Can(s, turns[0]) then Do(s, turns[0]) else s, turns[1..])
  }

  /** A schedule of possible turns is a run, so every state played is reachable. */
  lemma {:induction false} PlayedIsReachable(s: Fw, turns: seq<Act>)
    requires Reachable(s)
    ensures Reachable(Play(s, turns))
    decreases |turns|
  {
    hide Reachable, Can, Do;
    if turns != [] {
      if Can(s, turns[0]) {
        ReachStep(s, turns[0]);
      }
      PlayedIsReachable(if Can(s, turns[0]) then Do(s, turns[0]) else s, turns[1..]);
    }
  }

  lemma {:induction false} PlaySnoc(s: Fw, turns: seq<Act>, a: Act)
    ensures Play(s, turns + [a]) == var t := Play(s, turns); if Can(t, a) then Do(t, a) else t
    decreases |turns|
  {
    hide Can, Do;
    if turns == [] {
      assert (turns + [a])[1..] == [];
    } else {
      assert (turns + [a])[1..] == turns[1..] + [a];
      PlaySnoc(if Can(s, turns[0]) then Do(s, turns[0]) else s, turns[1..], a);
    }
  }

  /** And every run of the machine is played by the schedule of its own actions. */
  lemma {:induction false} RunsArePlayed(s: Fw, acts: seq<Act>)
    requires Exec(s, acts).Some?
    ensures Play(s, acts) == Exec(s, acts).value
    decreases |acts|
  {
    hide Can, Do;
    if acts != [] {
      var before, a := acts[..|acts| - 1], acts[|acts| - 1];
      RunsArePlayed(s, before);
      PlaySnoc(s, before, a);
      assert before + [a] == acts;
    }
  }

  class Board {
    const toUart: Queue
    const toTcp: Queue
    const efd: EventFd
    const uart: Uart
    const resetEnabled: bool
    const allowFlow: bool
    /** What has been written to the UART, and what each `send` to the client came to. */
    var uartOut: seq<byte>
    var sent: seq<Outgoing>
    /** Where a task that waits stands, and the locals it will need. */
    var tcp: TcpPc
    var rx: RxPc
    var tx: TxPc
    var turns: seq<Act>
    /** The machine's state, with the histories no code keeps. */
    ghost var s: Fw

    /** The objects are in the state the machine says. */
    ghost predicate Valid()
      reads this`tcp, this`rx, this`tx, this`uartOut, this`sent, this`s, toUart, toTcp, efd, uart
    {
      && toUart != toTcp && toUart.depth == TO_UART_DEPTH && toTcp.depth == TO_TCP_DEPTH
      && s.resetEnabled == resetEnabled && s.allowFlow == allowFlow
      && s.toUart == toUart.items && s.toTcp == toTcp.items && s.efd == efd.value
      && s.line == uart.AsLine() && s.uartOut == uartOut && s.out == sent
      && s.tcp == tcp && s.rx == rx && s.tx == tx
    }

    ghost function Shared(): set<object>
      reads this
    {
      {this, toUart, toTcp, efd, uart}
    }

    /** `state_init` and the start of the tasks. */
    constructor (resetEnabled: bool, allowFlow: bool, turns: seq<Act>)
      ensures Valid() && s == Init(resetEnabled, allowFlow) && this.turns == turns
      ensures fresh(toUart) && fresh(toTcp) && fresh(efd) && fresh(uart)
    {
      toUart := new Queue(TO_UART_DEPTH);
      toTcp := new Queue(TO_TCP_DEPTH);
      efd := new EventFd();
      uart := new Uart();
      this.resetEnabled, this.allowFlow := resetEnabled, allowFlow;
      uartOut, sent := [], [];
      tcp, rx, tx := Accepting, RxIdle, TxIdle;
      this.turns := turns;
      s := Init(resetEnabled, allowFlow);
    }

    /** Whether a waiting task's call can return now, judged by the objects. */
    predicate Enabled(a: Act)
      reads this`tcp, this`rx, this`tx, toUart, toTcp, efd
    {
      match a
      case AcceptClient => tcp.Accepting?
      case SelectFails => tcp.Selecting?
      case SelectReturns(client) => tcp.Selecting? && (client || efd.value > 0)
      case ReadFails => tcp.Reading?
      case ReadMsg(_) => tcp.Reading?
      case PushToUart => tcp.Pushing? && |toUart.items| < toUart.depth
      case ReadEventfd => tcp.Notified?
      case Pop => tcp.Draining? && toTcp.items != []
      case QueueEmpty => tcp.Draining? && toTcp.items == []
      case SendOk => tcp.Sending?
      case SendFails => tcp.Sending?
      case UartChunk(bytes) => rx.RxIdle? && bytes != []
      case RxPush => rx.RxHolding? && |toTcp.items| < toTcp.depth
      case RxNotify => rx.RxPushed?
      case TxTake => tx.TxIdle? && toUart.items != []
      case TxHandle => tx.TxHolding?
      case TxPush => tx.TxReplying? && |toTcp.items| < toTcp.depth
      case TxNotify => tx.TxReplied?
    }

    // -------------------------------------------------------------- tcp_task, from one wait to the next

    method Accepted()
      requires Valid() && tcp.Accepting?
      modifies this`tcp, this`s
      ensures Valid() && tcp == Selecting && s == Do(old(s), AcceptClient)
    {
      tcp := Selecting;
      s := Do(s, AcceptClient);
    }

    /** `select` returns; `FD_ISSET` of the eventfd is whether it holds a count. */
    method Selected(client: bool) returns (notified: bool)
      requires Valid() && Enabled(SelectReturns(client))
      modifies this`tcp, this`s
      ensures Valid() && s == Do(old(s), SelectReturns(client)) && (client || notified)
      ensures tcp == if client then Reading(notified) else Notified
    {
      notified := efd.value > 0;
      tcp := if client then Reading(notified) else Notified;
      s := Do(s, SelectReturns(client));
    }

    /** `read_msg` has filled in a message. */
    method MessageRead(msg: Msg, notified: bool)
      requires Valid() && tcp == Reading(notified)
      modifies this`tcp, this`s
      ensures Valid() && tcp == Pushing(msg, notified) && s == Do(old(s), ReadMsg(msg))
    {
      tcp := Pushing(msg, notified);
      s := Do(s, ReadMsg(msg));
    }

    method QueueForUart(msg: Msg, notified: bool)
      requires Valid() && tcp == Pushing(msg, notified) && |toUart.items| < toUart.depth
      modifies this`tcp, this`s, toUart
      ensures Valid() && tcp == (if notified then Notified else Selecting) && s == Do(old(s), PushToUart)
    {
      toUart.Send(msg);
      tcp := if notified then Notified else Selecting;
      s := Do(s, PushToUart);
    }

    method ResetEventFd()
      requires Valid() && tcp.Notified?
      modifies this`tcp, this`s, efd
      ensures Valid() && tcp == Draining && s == Do(old(s), ReadEventfd)
    {
      var _ := efd.Read();
      tcp := Draining;
      s := Do(s, ReadEventfd);
    }

    /** `xQueueReceive` with no wait. */
    method ReceiveForClient() returns (msg: Option<Msg>)
      requires Valid() && tcp.Draining?
      modifies this`tcp, this`s, toTcp
      ensures Valid() && (msg == None <==> old(toTcp.items) == [])
      ensures tcp == if msg.Some? then Sending(msg.value) else Selecting
      ensures s == Do(old(s), if msg.Some? then Pop else QueueEmpty)
    {
      if toTcp.items == [] {
        msg := None;
        tcp := Selecting;
        s := Do(s, QueueEmpty);
      } else {
        var m := toTcp.Receive();
        msg := Some(m);
        tcp := Sending(m);
        s := Do(s, Pop);
      }
    }

    method SentToClient(msg: Msg, ok: bool)
      requires Valid() && tcp == Sending(msg)
      modifies this`tcp, this`sent, this`s
      ensures Valid() && tcp == (if ok then Draining else Accepting)
      ensures s == Do(old(s), if ok then SendOk else SendFails)
    {
      sent := sent + [Outgoing(msg, ok)];
      tcp := if ok then Draining else Accepting;
      s := Do(s, if ok then SendOk else SendFails);
    }

    /** `select` or `read_msg` failed: the session is over. */
    method SessionOver(a: Act)
      requires Valid() && Enabled(a) && (a.SelectFails? || a.ReadFails?)
      modifies this`tcp, this`s
      ensures Valid() && tcp == Accepting && s == Do(old(s), a)
    {
      tcp := Accepting;
      s := Do(s, a);
    }

    // -------------------------------------------------------------- uart_rx_task

    /** Bytes read from the driver, put into a message. */
    method ChunkRead(bytes: Chunk) returns (msg: Msg)
      requires Valid() && rx.RxIdle? && bytes != []
      modifies this`rx, this`s
      ensures Valid() && rx == RxHolding(msg) && s == Do(old(s), UartChunk(bytes))
    {
      msg := Msg(Frame(1, bytes), 0);
      rx := RxHolding(msg);
      s := Do(s, UartChunk(bytes));
    }

    method QueueChunk(msg: Msg)
      requires Valid() && rx == RxHolding(msg) && |toTcp.items| < toTcp.depth
      modifies this`rx, this`s, toTcp
      ensures Valid() && rx == RxPushed && s == Do(old(s), RxPush)
    {
      toTcp.Send(msg);
      rx := RxPushed;
      s := Do(s, RxPush);
    }

    method NotifyChunk()
      requires Valid() && rx.RxPushed?
      modifies this`rx, this`s, efd
      ensures Valid() && rx == RxIdle && s == Do(old(s), RxNotify)
    {
      efd.Write(1);
      rx := RxIdle;
      s := Do(s, RxNotify);
    }

    // -------------------------------------------------------------- uart_tx_task

    method TakeForUart() returns (msg: Msg)
      requires Valid() && tx.TxIdle? && toUart.items != []
      modifies this`tx, this`s, toUart
      ensures Valid() && tx == TxHolding(msg) && s == Do(old(s), TxTake)
    {
      msg := toUart.Receive();
      tx := TxHolding(msg);
      s := Do(s, TxTake);
    }

    /** The dispatch on the kind of a message, and the answer of `handle_control`. */
    method Effect(m: Msg) returns (reply: Option<Msg>)
      modifies this`uartOut, uart
      ensures uartOut == old(uartOut) + if m.frame.kind == 1 then m.frame.body else []
      ensures m.frame.kind != 2 || |m.frame.body| != 8 ==> uart.AsLine() == old(uart.AsLine())
      ensures m.frame.kind == 2 && |m.frame.body| == 8 ==>
                uart.AsLine() == Applied(old(uart.AsLine()), ConfigFieldsOf(m.frame.body), allowFlow)
      ensures m.frame.kind != 3 || |m.frame.body| != 1 ==> reply == None
      ensures m.frame.kind == 3 && |m.frame.body| == 1 ==>
                reply == Some(Msg(Frame(4, [if m.frame.body[0] == 1 && resetEnabled then 1 else 2]), m.tag))
    {
      reply := None;
      match m.frame.kind {
        case 1 =>
          uartOut := uartOut + m.frame.body;
        case 2 =>
          if |m.frame.body| == 8 {
            uart.ApplyConfig(ConfigFieldsOf(m.frame.body), allowFlow);
          }
        case 3 =>
          if |m.frame.body| == 1 {
            var status := 2;
            if m.frame.body[0] == 1 && resetEnabled {
              status := 1;
            }
            reply := Some(Msg(Frame(4, [status]), m.tag));
          }
        case _ =>
      }
    }

    method HandleForUart(msg: Msg) returns (reply: Option<Msg>)
      requires Valid() && tx == TxHolding(msg)
      modifies this`tx, this`uartOut, this`s, uart
      ensures Valid() && s == Do(old(s), TxHandle)
      ensures tx == if reply.Some? then TxReplying(reply.value) else TxIdle
    {
      hide Applied;
      reply := Effect(msg);
      tx := if reply.Some? then TxReplying(reply.value) else TxIdle;
      s := Do(s, TxHandle);
    }

    method QueueReply(reply: Msg)
      requires Valid() && tx == TxReplying(reply) && |toTcp.items| < toTcp.depth
      modifies this`tx, this`s, toTcp
      ensures Valid() && tx == TxReplied && s == Do(old(s), TxPush)
    {
      toTcp.Send(reply);
      tx := TxReplied;
      s := Do(s, TxPush);
    }

    method NotifyReply()
      requires Valid() && tx.TxReplied?
      modifies this`tx, this`s, efd
      ensures Valid() && tx == TxIdle && s == Do(old(s), TxNotify)
    {
      efd.Write(1);
      tx := TxIdle;
      s := Do(s, TxNotify);
    }

    // -------------------------------------------------------------- taking turns

    /** A task goes on from where it stands, with what it saved, to where it waits next. */
    method ResumeTcp(a: Act)
      requires Valid() && Enabled(a) && TaskOf(a).Tcp?
      modifies this`tcp, this`sent, this`s, toUart, toTcp, efd
      ensures Valid() && s == Do(old(s), a)
    {
      hide Do, Valid;
      match a {
        case AcceptClient => Accepted();
        case SelectFails => SessionOver(a);
        case SelectReturns(client) => var _ := Selected(client);
        case ReadFails => SessionOver(a);
        case ReadMsg(m) => MessageRead(m, tcp.notified);
        case PushToUart => QueueForUart(tcp.m, tcp.notified);
        case ReadEventfd => ResetEventFd();
        case Pop => var _ := ReceiveForClient();
        case QueueEmpty => var _ := ReceiveForClient();
        case SendOk => SentToClient(tcp.m, true);
        case SendFails => SentToClient(tcp.m, false);
      }
    }

    method ResumeRx(a: Act)
      requires Valid() && Enabled(a) && TaskOf(a).UartRx?
      modifies this`rx, this`s, toTcp, efd
      ensures Valid() && s == Do(old(s), a)
    {
      hide Do, Valid;
      match a {
        case UartChunk(bytes) => var _ := ChunkRead(bytes);
        case RxPush => QueueChunk(rx.m);
        case RxNotify => NotifyChunk();
      }
    }

    method ResumeTx(a: Act)
      requires Valid() && Enabled(a) && TaskOf(a).UartTx?
      modifies this`tx, this`uartOut, this`s, toUart, toTcp, efd, uart
      ensures Valid() && s == Do(old(s), a)
    {
      hide Do, Valid;
      match a {
        case TxTake => var _ := TakeForUart();
        case TxHandle => var _ := HandleForUart(tx.m);
        case TxPush => QueueReply(tx.m);
        case TxNotify => NotifyReply();
      }
    }

    /** What a task can do where it stands is what the machine allows. */
    lemma EnabledIsCan(a: Act)
      requires Valid()
      ensures Enabled(a) == Can(s, a)
    {
    }

    /** A waiting call of one task: the others move until it is this one's turn, if it ever is. */
    method Await(me: TaskId) returns (a: Option<Act>)
      requires Valid()
      modifies Shared()
      ensures Valid()
      ensures a == None ==> turns == [] && s == Play(old(s), old(turns))
      ensures a.Some? ==> TaskOf(a.value) == me && Enabled(a.value) && Can(s, a.value) && |turns| < |old(turns)|
      ensures a.Some? ==> Play(Do(s, a.value), turns) == Play(old(s), old(turns))
      ensures me.Tcp? ==> tcp == old(tcp)
      ensures me.UartRx? ==> rx == old(rx)
      ensures me.UartTx? ==> tx == old(tx)
    {
      hide Do, Can, Enabled, Valid;
      a := None;
      while turns != []
        invariant Valid() && Play(s, turns) == Play(old(s), old(turns)) && |turns| <= |old(turns)|
        invariant me.Tcp? ==> tcp == old(tcp)
        invariant me.UartRx? ==> rx == old(rx)
        invariant me.UartTx? ==> tx == old(tx)
        decreases |turns|
      {
        var next := turns[0];
        turns := turns[1..];
        EnabledIsCan(next);
        if Enabled(next) {
          if TaskOf(next) == me {
            return Some(next);
          }
          match TaskOf(next) {
            case Tcp => ResumeTcp(next);
            case UartRx => ResumeRx(next);
            case UartTx => ResumeTx(next);
          }
        }
      }
    }

    // -------------------------------------------------------------- the loops

    /** The drain loop of `handle_client`. */
    method DrainToClient() returns (connected: bool)
      requires Valid() && tcp.Draining?
      modifies Shared()
      ensures Valid() && Play(s, turns) == Play(old(s), old(turns))
      ensures turns != [] ==> tcp == (if connected then Selecting else Accepting) && |turns| < |old(turns)|
    {
      hide Do, Can, Valid;
      connected := true;
      while turns != []
        invariant Valid() && tcp.Draining? && Play(s, turns) == Play(old(s), old(turns)) && |turns| <= |old(turns)|
        decreases |turns|
      {
        var turn := Await(Tcp);
        if turn == None { return; }
        var msg := ReceiveForClient();
        if msg == None { return; }
        var send := Await(Tcp);
        if send == None { return; }
        connected := send.value.SendOk?;
        SentToClient(msg.value, connected);
        if !connected { return; }
      }
    }

    /** The eventfd was readable: reset it and drain. */
    method DrainNotified() returns (connected: bool)
      requires Valid() && tcp.Notified?
      modifies Shared()
      ensures Valid() && Play(s, turns) == Play(old(s), old(turns))
      ensures turns != [] ==> tcp == (if connected then Selecting else Accepting) && |turns| < |old(turns)|
    {
      hide Do, Can, Valid;
      var reset := Await(Tcp);
      if reset == None { return true; }
      ResetEventFd();
      connected := DrainToClient();
    }

    /** The client has sent something: read one message and queue it. */
    method TakeFromClient(notified: bool) returns (connected: bool)
      requires Valid() && tcp == Reading(notified)
      modifies Shared()
      ensures Valid() && Play(s, turns) == Play(old(s), old(turns)) && |turns| <= |old(turns)|
      ensures turns != [] ==> tcp == if !connected then Accepting else if notified then Notified else Selecting
    {
      hide Do, Can, Valid;
      connected := true;
      var read := Await(Tcp);
      if read == None { return; }
      if read.value.ReadFails? {
        SessionOver(read.value);
        return false;
      }
      var msg := read.value.m;
      MessageRead(msg, notified);
      var push := Await(Tcp);
      if push == None { return; }
      QueueForUart(msg, notified);
    }

    /** One session, until it fails. */
    method HandleClient()
      requires Valid() && tcp.Selecting?
      modifies Shared()
      ensures Valid() && Play(s, turns) == Play(old(s), old(turns))
      ensures turns != [] ==> tcp.Accepting? && |turns| <= |old(turns)|
    {
      hide Do, Can, Valid;
      while turns != []
        invariant Valid() && tcp.Selecting? && Play(s, turns) == Play(old(s), old(turns)) && |turns| <= |old(turns)|
        decreases |turns|
      {
        var ready := Await(Tcp);
        if ready == None { return; }
        if ready.value.SelectFails? {
          SessionOver(ready.value);
          return;
        }
        var client := ready.value.client;
        var notified := Selected(client);
        var connected := true;
        if client {
          connected := TakeFromClient(notified);
          if turns == [] || !connected { return; }
        }
        if notified {
          connected := DrainNotified();
          if turns == [] || !connected { return; }
        }
      }
    }

    /** `tcp_task`: one client after the other. */
    method TcpTask()
      requires Valid() && tcp.Accepting?
      modifies Shared()
      ensures Valid() && turns == [] && s == Play(old(s), old(turns))
    {
      hide Do, Can, Valid;
      while turns != []
        invariant Valid() && (turns != [] ==> tcp.Accepting?) && Play(s, turns) == Play(old(s), old(turns))
        decreases |turns|
      {
        var accept := Await(Tcp);
        if accept == None { return; }
        Accepted();
        HandleClient();
      }
    }

    /** `uart_rx_task`: queue each chunk, then write the eventfd. */
    method UartRxTask()
      requires Valid() && rx.RxIdle?
      modifies Shared()
      ensures Valid() && turns == [] && s == Play(old(s), old(turns))
    {
      hide Do, Can, Valid;
      while turns != []
        invariant Valid() && (turns != [] ==> rx.RxIdle?) && Play(s, turns) == Play(old(s), old(turns))
        decreases |turns|
      {
        var data := Await(UartRx);
        if data == None { return; }
        var msg := ChunkRead(data.value.bytes);
        var push := Await(UartRx);
        if push == None { return; }
        QueueChunk(msg);
        var notify := Await(UartRx);
        if notify == None { return; }
        NotifyChunk();
      }
    }

    /** The end of `handle_control`: queue the answer, then write the eventfd. */
    method Respond(reply: Msg)
      requires Valid() && tx == TxReplying(reply)
      modifies Shared()
      ensures Valid() && Play(s, turns) == Play(old(s), old(turns))
      ensures (turns != [] ==> tx.TxIdle?) && |turns| <= |old(turns)|
    {
      hide Do, Can, Valid;
      var push := Await(UartTx);
      if push == None { return; }
      QueueReply(reply);
      var notify := Await(UartTx);
      if notify == None { return; }
      NotifyReply();
    }

    /** `uart_tx_task`: dispatch what comes, and answer control messages. */
    method UartTxTask()
      requires Valid() && tx.TxIdle?
      modifies Shared()
      ensures Valid() && turns == [] && s == Play(old(s), old(turns))
    {
      hide Do, Can, Valid;
      while turns != []
        invariant Valid() && (turns != [] ==> tx.TxIdle?) && Play(s, turns) == Play(old(s), old(turns))
        decreases |turns|
      {
        var take := Await(UartTx);
        if take == None { return; }
        var msg := TakeForUart();
        var handle := Await(UartTx);
        if handle == None { return; }
        var reply := HandleForUart(msg);
        if reply.Some? {
          Respond(reply.value);
        }
      }
    }

    /** The machine's guarantees, read off the objects, at any point of any schedule from power-up. */
    lemma ObjectsAreSafe(powerUp: Fw, played: seq<Act>)
      requires Valid() && Reachable(powerUp) && s == Play(powerUp, played)
      ensures |toUart.items| <= toUart.depth && |toTcp.items| <= toTcp.depth
      ensures |toTcp.items| == toTcp.depth ==> efd.value > 0 || rx.RxPushed? || tx.TxReplied? || tcp.Draining?
      ensures (forall o <- sent :: o.sentWhole) && tcp.Selecting? && toTcp.items != [] ==>
                efd.value > 0 || rx.RxPushed? || tx.TxReplied?
      ensures uartOut <= DataOf(s.received)
    {
      hide Play, Reachable, ConservationInv, RepliesNeedControl, DataOf;
      PlayedIsReachable(powerUp, played);
      ReachableInv(s);
      OutputIsReceived(s);
    }
  }

  /** The UART gets the beginning of the data received. */
  lemma OutputIsReceived(s: Fw)
    requires ConservationInv(s)
    ensures s.uartOut <= DataOf(s.received)
  {
    hide InboundConserved, OutboundConserved, LossBounded, UartInOrder, RepliesInOrder, AllProduced, DataOf, LineOf;
    HandledFirst(s);
    DataOfGrows(s.handled, s.received[|s.handled|..]);
    assert s.received == s.handled + s.received[|s.handled|..];
  }

  lemma {:induction false} DataOfGrows(a: seq<Msg>, b: seq<Msg>)
    ensures DataOf(a) <= DataOf(a + b)
    decreases |b|
  {
    if b == [] {
      assert a + b == a;
    } else {
      DataOfGrows(a, b[..|b| - 1]);
      assert a + b == (a + b[..|b| - 1]) + [b[|b| - 1]];
      DataOfSnoc(a + b[..|b| - 1], b[|b| - 1]);
    }
  }

  /** Every run of the machine is what the objects go through under some schedule: the run's own. */
  method PlayRun(resetEnabled: bool, allowFlow: bool, run: seq<Act>) returns (board: Board)
    requires Exec(Init(resetEnabled, allowFlow), run).Some?
    ensures board.Valid()
    ensures var s := Exec(Init(resetEnabled, allowFlow), run).value;
            && board.toUart.items == s.toUart && board.toTcp.items == s.toTcp && board.efd.value == s.efd
            && board.uart.AsLine() == s.line && board.uartOut == s.uartOut && board.sent == s.out
  {
    board := new Board(resetEnabled, allowFlow, run);
    board.TcpTask();
    RunsArePlayed(Init(resetEnabled, allowFlow), run);
  }
}
