/** Runs of the firmware that reach the states its comments rule out. */
module FirmwareRuns {
  import opened Bytes
  import opened FrameReader
  import opened Firmware

  const Ping := Msg(Frame(1, [0]), 0)
  const ResetRequest := Msg(Frame(3, [1]), 7)

  lemma Step(s: Fw, a: Act) returns (t: Fw)
    requires Reachable(s) && Can(s, a)
    ensures Reachable(t) && t == Do(s, a)
  {
    ReachStep(s, a);
    t := Do(s, a);
  }

  lemma Start() returns (s: Fw)
    ensures Reachable(s) && s == Init(true, false)
  {
    s := Init(true, false);
    assert Exec(Init(true, false), []) == Some(s);
  }

  /** `uart_tx_task` is busy with a control message and nothing is queued or signalled towards the client. */
  predicate Busy(s: Fw) {
    s.tcp.Selecting? && s.rx.RxIdle? && s.tx == TxHolding(ResetRequest) && s.toTcp == [] && s.efd == 0
  }

  lemma ReachBusy() returns (s: Fw)
    ensures Reachable(s) && Busy(s) && s.toUart == []
  {
    s := Start();
    s := Step(s, AcceptClient);
    s := Step(s, SelectReturns(true));
    s := Step(s, ReadMsg(ResetRequest));
    s := Step(s, PushToUart);
    s := Step(s, TxTake);
  }

  /** The client keeps sending while the control message is being handled. */
  lemma {:induction false} FillToUart(s: Fw, k: nat) returns (t: Fw)
    requires Reachable(s) && Busy(s) && |s.toUart| + k == TO_UART_DEPTH
    ensures Reachable(t) && Busy(t) && |t.toUart| == TO_UART_DEPTH
    decreases k
  {
    if k == 0 {
      t := s;
    } else {
      t := Step(s, SelectReturns(true));
      t := Step(t, ReadMsg(Ping));
      t := Step(t, PushToUart);
      t := FillToUart(t, k - 1);
    }
  }

  lemma DeliverByte(s: Fw) returns (t: Fw)
    requires Reachable(s) && s.rx.RxIdle? && |s.toTcp| < TO_TCP_DEPTH
    ensures Reachable(t) && t.rx.RxIdle? && |t.toTcp| == |s.toTcp| + 1 && t.efd == s.efd + 1
    ensures t.tcp == s.tcp && t.tx == s.tx && t.toUart == s.toUart && t.sessions == s.sessions
  {
    t := Step(s, UartChunk([0]));
    t := Step(t, RxPush);
    t := Step(t, RxNotify);
  }

  /** The UART keeps delivering while `tcp_task` waits for the rest of a frame. */
  lemma {:induction false} FillToTcp(s: Fw, k: nat) returns (t: Fw)
    requires Reachable(s) && s.tcp == Reading(false) && s.rx.RxIdle? && s.tx.TxHolding? && |s.toTcp| + k == TO_TCP_DEPTH
    ensures Reachable(t) && t.tcp == Reading(false) && t.rx.RxIdle? && t.tx == s.tx && t.toUart == s.toUart
    ensures |t.toTcp| == TO_TCP_DEPTH
    decreases k
  {
    if k == 0 {
      t := s;
    } else {
      t := DeliverByte(s);
      t := FillToTcp(t, k - 1);
    }
  }

  /**
    One control message, sixteen data messages and a busy UART are enough for `tcp_task` and
    `uart_tx_task` to wait for each other for ever.
   */
  lemma CircularWaitIsReachable() returns (s: Fw)
    ensures Reachable(s) && CircularWait(s) && |s.toUart| == 16 && |s.toTcp| == 128
    ensures forall acts :: Exec(s, acts).Some? ==> CircularWait(Exec(s, acts).value)
  {
    s := ReachBusy();
    s := FillToUart(s, TO_UART_DEPTH);
    s := Step(s, SelectReturns(true));
    s := FillToTcp(s, TO_TCP_DEPTH);
    s := Step(s, ReadMsg(Ping));
    s := Step(s, TxHandle);
    forall acts | Exec(s, acts).Some?
      ensures CircularWait(Exec(s, acts).value)
    {
      CircularWaitIsForever(s, acts);
    }
  }

  /** A session that ends in a failed send can leave the next one asleep over queued UART data. */
  lemma FailedSendCanStrandMessages() returns (s: Fw)
    ensures Reachable(s) && Stranded(s) && s.tcp.Selecting? && s.toTcp != [] && s.sessions == 2
  {
    hide Reachable, LineAfter, ReplyTo, DataIn;
    s := Start();
    s := DeliverByte(s);
    s := DeliverByte(s);
    s := Step(s, AcceptClient);
    s := Step(s, SelectReturns(false));
    s := Step(s, ReadEventfd);
    s := Step(s, Pop);
    s := Step(s, SendFails);
    s := Step(s, AcceptClient);
  }
}
