/**
  The firmware can always be emptied towards its client: from any point at which `tcp_task` waits in
  `select`, some schedule without a failing call sends out all it holds. Every argument about what
  a schedule can bring about starts here.
 */
module FirmwareFlush {
  import opened Bytes
  import opened Firmware

  /** No call fails, and nothing is read from the client. */
  predicate Calm(a: Act) {
    !a.AcceptClient? && !a.SelectFails? && !a.ReadFails? && !a.SendFails? && !a.ReadMsg?
  }

  ghost predicate Leads(s: Fw, t: Fw) {
    exists acts :: Exec(s, acts) == Some(t) && forall a <- acts :: Calm(a)
  }

  lemma LeadsNowhere(s: Fw)
    ensures Leads(s, s)
  {
    assert Exec(s, []) == Some(s);
  }

  lemma Then(s: Fw, t: Fw, a: Act) returns (u: Fw)
    requires Leads(s, t) && NotificationInv(t) && Can(t, a) && Calm(a)
    ensures Leads(s, u) && NotificationInv(u) && u == Do(t, a)
  {
    hide Can, Do, NotificationInv, Calm;
    var acts :| Exec(s, acts) == Some(t) && forall b <- acts :: Calm(b);
    u := Do(t, a);
    assert (acts + [a])[..|acts|] == acts;
    assert Exec(s, acts + [a]) == Some(u);
    NotificationStep(t, a);
  }

  /** How much `uart_tx_task` has left to do. */
  function Work(s: Fw): nat {
    4 * |s.toUart| + match s.tx case TxIdle => 0 case TxReplied => 1 case TxReplying(_) => 2 case TxHolding(_) => 3
  }

  /** Waiting in `select` with nothing to wake it but a producer's write, a producer writes. */
  lemma Notice(s: Fw, t: Fw) returns (u: Fw)
    requires Leads(s, t) && NotificationInv(t) && t.tcp.Selecting?
    ensures Leads(s, u) && NotificationInv(u) && u.tcp.Selecting? && u.efd > 0 && Work(u) <= Work(t)
  {
    hide Leads, NotificationInv, LineAfter, ReplyTo, DataIn;
    u := t;
    if t.efd == 0 {
      if t.rx.RxPushed? {
        u := Then(s, t, RxNotify);
      } else if t.tx.TxReplied? {
        u := Then(s, t, TxNotify);
      } else {
        RoomToNotice(t);
        u := Chunk(s, t);
        u := Then(s, u, RxPush);
        u := Then(s, u, RxNotify);
      }
    }
  }

  lemma RoomToNotice(t: Fw)
    requires NotificationInv(t) && t.tcp.Selecting? && t.efd == 0 && !NotifierAtWork(t)
    ensures |t.toTcp| < TO_TCP_DEPTH
  {
  }

  /** `uart_rx_task` holds a chunk, its own or one that comes in now. */
  lemma Chunk(s: Fw, t: Fw) returns (u: Fw)
    requires Leads(s, t) && NotificationInv(t) && !t.rx.RxPushed?
    ensures Leads(s, u) && NotificationInv(u) && u.rx.RxHolding? && u.tcp == t.tcp && u.toTcp == t.toTcp && Work(u) == Work(t)
  {
    hide Leads, NotificationInv, LineAfter, ReplyTo, DataIn;
    u := t;
    if t.rx.RxIdle? {
      u := Then(s, t, UartChunk([0]));
    }
  }

  /** The drain loop runs to its end. */
  lemma {:induction false} DrainOn(s: Fw, t: Fw) returns (u: Fw)
    requires Leads(s, t) && NotificationInv(t) && t.tcp.Draining?
    ensures Leads(s, u) && NotificationInv(u) && u.tcp.Selecting? && u.toTcp == []
    ensures u.efd == t.efd && u.tx == t.tx && u.toUart == t.toUart
    decreases |t.toTcp|
  {
    hide Leads, NotificationInv, LineAfter, ReplyTo, DataIn;
    if t.toTcp == [] {
      u := Then(s, t, QueueEmpty);
    } else {
      u := Then(s, t, Pop);
      u := Then(s, u, SendOk);
      u := DrainOn(s, u);
    }
  }

  /** One pass of `handle_client` that empties the queue. */
  lemma Drain(s: Fw, t: Fw) returns (u: Fw)
    requires Leads(s, t) && NotificationInv(t) && t.tcp.Selecting?
    ensures Leads(s, u) && NotificationInv(u) && u.tcp.Selecting? && u.toTcp == [] && u.efd == 0 && Work(u) <= Work(t)
  {
    hide Leads, NotificationInv, LineAfter, ReplyTo, DataIn;
    u := Notice(s, t);
    u := Then(s, u, SelectReturns(false));
    u := Then(s, u, ReadEventfd);
    u := DrainOn(s, u);
  }

  /** `uart_tx_task` takes a step. */
  lemma WorkOn(s: Fw, t: Fw) returns (u: Fw)
    requires Leads(s, t) && NotificationInv(t) && t.tcp.Selecting? && t.toTcp == [] && Work(t) > 0
    ensures Leads(s, u) && NotificationInv(u) && u.tcp.Selecting? && Work(u) < Work(t)
  {
    hide Leads, NotificationInv, LineAfter, ReplyTo, DataIn;
    match t.tx {
      case TxIdle => u := Then(s, t, TxTake);
      case TxHolding(_) => u := Then(s, t, TxHandle);
      case TxReplying(_) => u := Then(s, t, TxPush);
      case TxReplied => u := Then(s, t, TxNotify);
    }
  }

  /** Everything the firmware holds goes out. */
  lemma {:induction false} Flush(s: Fw, t: Fw) returns (u: Fw)
    requires Leads(s, t) && NotificationInv(t) && t.tcp.Selecting?
    ensures Leads(s, u) && NotificationInv(u) && u.tcp.Selecting? && u.efd == 0
    ensures u.toTcp == [] && u.tx.TxIdle? && u.toUart == []
    decreases Work(t)
  {
    hide Leads, NotificationInv;
    u := Drain(s, t);
    if Work(u) > 0 {
      u := WorkOn(s, u);
      u := Flush(s, u);
    }
  }
}
