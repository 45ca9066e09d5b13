/**
  The two ends as they are shipped can wedge each other: one reset request, some typing and some
  output of the UART bring the firmware's tasks into their circular wait, for ever.
 */
module BridgeStuck {
  import opened Bytes
  import opened DeviceCodec
  import opened FrameReader
  import opened ConnProtocol
  import opened Bridge
  import opened BridgeLinks
  import opened BridgeWire
  import opened BridgeFlow
  import opened BridgeTokens
  import opened BridgeRuns
  import opened BridgeSession
  import opened BridgeServe
  import F = Firmware

  const ResetAsked := MsgOf(ControlReq(Reset), 1)

  /** The daemon is connected and the firmware has yet to accept its only session. */
  predicate Waiting(t: Sys) {
    && t.task.state.Connected? && InSession(t) && !t.task.done && |t.sessions| == 1
    && t.fw == F.Init(true, false)
  }

  lemma Sending(s: Sys, t: Sys, e: Event, m: DeviceMessage, tag: nat) returns (u: Sys)
    requires Reaches(s, t) && SysInv(t) && Waiting(t) && Can(t.task, e) && !e.Incoming?
    requires LinkEventOf(t.task, e) == Sends(m, tag, true)
    requires React(t.task, e).0.state.Connected? && React(t.task, e).0.linked && !React(t.task, e).0.done
    ensures Reaches(s, u) && SysInv(u) && Waiting(u) && u.task == React(t.task, e).0
    ensures UpPipe(u) == UpPipe(t) + [MsgOf(m, tag)] && u.attempts == t.attempts + [MsgOf(m, tag)]
  {
    hide Reaches, SysInv, WireInv, LinkMatchesState, Can, React, LinkEventOf, Effects, Project, UpPipe, DownPipe, Encode, FromDaemon,
      Retained, FromBytes, DeviceOf, F.Produced, MsgOf, F.Init;
    u := Next(s, t, Daemon(e));
    DaemonOfInv(t);
    DaemonAlone(t, e);
    MovesWithEvents(t, e);
    PipesMoveWithEvents(t, e);
    WaitingServes(t);
  }

  lemma WaitingServes(t: Sys)
    requires Waiting(t)
    ensures Serving(t) == 0
  {
  }

  function Start(): Sys { InitSys(true, false) }

  /** The daemon's first connect succeeds. */
  lemma Connected1() returns (t: Sys)
    ensures Reaches(Start(), t) && SysInv(t) && Waiting(t) && t.task.waiting == None && UpPipe(t) == [] && t.attempts == []
  {
    hide Reaches, SysInv;
    ReachesItself(Start());
    InitHolds(true, false);
    EffectsOfEvents(Start().task, SleepElapsed(true), []);
    AttemptsOfEvents(Start().task, SleepElapsed(true));
    t := Next(Start(), Start(), Daemon(SleepElapsed(true)));
    assert t.sessions == [NewSession];
    assert t.sessions[0..] == [NewSession];
    FlightsOne(NewSession);
  }

  /** A user asks for a reset. */
  lemma Ask(s: Sys, t: Sys) returns (u: Sys)
    requires Reaches(s, t) && SysInv(t) && Waiting(t) && t.task.waiting == None
    ensures Reaches(s, u) && SysInv(u) && Waiting(u) && UpPipe(u) == UpPipe(t) + [ResetAsked]
  {
    hide Reaches, SysInv, Waiting, UpPipe, Encode;
    assert t.task.state.Connected? && t.task.linked && !t.task.done by { OfWaiting(t); }
    u := Sending(s, t, HwRequest(1, Reset, Ok), ControlReq(Reset), 1);
  }

  lemma OfWaiting(t: Sys)
    requires Waiting(t)
    ensures t.task.state.Connected? && t.task.linked && !t.task.done
  {
  }

  /** Keys are typed, one at a time. */
  lemma {:induction false} Type(s: Sys, t: Sys, n: nat) returns (u: Sys)
    requires Reaches(s, t) && SysInv(t) && Waiting(t)
    ensures Reaches(s, u) && SysInv(u) && Waiting(u) && |UpPipe(u)| == |UpPipe(t)| + n && UpPipe(t) <= UpPipe(u)
    decreases n
  {
    hide Reaches, SysInv, Waiting, UpPipe, Encode, FromBytes;
    u := t;
    if n > 0 {
      OfWaiting(t);
      u := Sending(s, t, PtyData([0], Ok), FromBytes([0]), 0);
      u := Type(s, u, n - 1);
    }
  }

  // ---------------------------------------------------------------- the firmware

  lemma Accepted1(s: Sys, t: Sys) returns (u: Sys)
    requires Reaches(s, t) && SysInv(t) && Waiting(t)
    ensures Reaches(s, u) && SysInv(u) && Served(u) && u.fw == F.Do(t.fw, F.AcceptClient) && UpPipe(u) == UpPipe(t)
    ensures u.task == t.task && u.attempts == t.attempts
  {
    hide Reaches, SysInv;
    u := Next(s, t, Device(F.AcceptClient, 0));
  }

  /** The next frame is read and waits to be queued. */
  lemma ReadNext(s: Sys, t: Sys) returns (u: Sys)
    requires Reaches(s, t) && SysInv(t) && Served(t) && t.fw.tcp.Selecting? && t.fw.efd == 0 && UpPipe(t) != []
    ensures Reaches(s, u) && SysInv(u) && Served(u) && UpPipe(t) == [UpPipe(t)[0]] + UpPipe(u)
    ensures u.fw == t.fw.(tcp := F.Pushing(UpPipe(t)[0], false), received := t.fw.received + [UpPipe(t)[0]])
  {
    hide Reaches, SysInv, Served, Tokens, UpPipe, CanSys;
    u := CalmStep(s, t, F.SelectReturns(true));
    NextIsReadable(u);
    u := ServeStep(s, u, F.ReadMsg(UpPipe(u)[0]));
  }

  /** What is typed fills the queue to the UART while the reset is being carried out. */
  lemma {:induction false} FillToUart(s: Sys, t: Sys, n: nat) returns (u: Sys)
    requires Reaches(s, t) && SysInv(t) && Served(t) && t.fw.tcp.Selecting? && t.fw.efd == 0 && |UpPipe(t)| == n + 1
    requires |t.fw.toUart| + n == F.TO_UART_DEPTH
    ensures Reaches(s, u) && SysInv(u) && Served(u) && u.fw.tcp.Pushing? && |u.fw.toUart| == F.TO_UART_DEPTH
    ensures u.fw.tx == t.fw.tx && u.fw.rx == t.fw.rx && u.fw.toTcp == t.fw.toTcp
    decreases n
  {
    hide Reaches, SysInv, Served, UpPipe, Tokens;
    u := ReadNext(s, t);
    if n > 0 {
      u := CalmStep(s, u, F.PushToUart);
      u := FillToUart(s, u, n - 1);
    }
  }

  /** The UART keeps delivering. */
  lemma {:induction false} FillToTcp(s: Sys, t: Sys, n: nat) returns (u: Sys)
    requires Reaches(s, t) && SysInv(t) && Served(t) && t.fw.tcp.Pushing? && t.fw.rx.RxIdle?
    requires |t.fw.toTcp| + n == F.TO_TCP_DEPTH
    ensures Reaches(s, u) && SysInv(u) && Served(u) && u.fw.tcp == t.fw.tcp && u.fw.tx == t.fw.tx && u.fw.toUart == t.fw.toUart
    ensures |u.fw.toTcp| == F.TO_TCP_DEPTH
    decreases n
  {
    hide Reaches, SysInv, Served, UpPipe, Tokens;
    u := t;
    if n > 0 {
      u := CalmStep(s, u, F.UartChunk([0]));
      u := CalmStep(s, u, F.RxPush);
      u := CalmStep(s, u, F.RxNotify);
      u := FillToTcp(s, u, n - 1);
    }
  }

  lemma {:induction false} WedgedForEver(s: Sys, acts: seq<Act>)
    requires F.CircularWait(s.fw) && RunFrom(s, acts).Some?
    ensures var t := RunFrom(s, acts).value;
            && F.CircularWait(t.fw) && t.fw.toUart == s.fw.toUart && t.fw.toTcp == s.fw.toTcp
            && t.fw.sessions == s.fw.sessions && t.fw.received == s.fw.received && t.fw.uartOut == s.fw.uartOut
    decreases |acts|
  {
    hide F.LineAfter, F.ReplyTo, F.DataIn, React, Effects, Project, Decode, FrameBytes, ReadFrame;
    if acts != [] {
      WedgedForEver(s, acts[..|acts| - 1]);
      WedgedStep(RunFrom(s, acts[..|acts| - 1]).value, acts[|acts| - 1]);
    }
  }

  lemma WedgedStep(s: Sys, act: Act)
    requires F.CircularWait(s.fw) && CanSys(s, act)
    ensures var t := DoSys(s, act);
            && F.CircularWait(t.fw) && t.fw.toUart == s.fw.toUart && t.fw.toTcp == s.fw.toTcp
            && t.fw.sessions == s.fw.sessions && t.fw.received == s.fw.received && t.fw.uartOut == s.fw.uartOut
  {
    hide F.LineAfter, F.ReplyTo, F.DataIn, React, Effects, Project, Decode, FrameBytes, ReadFrame;
  }

  /**
    From start-up, with the daemon as the only client: the circular wait is reached, and nothing
    either end does afterwards, reconnecting included, moves a message or a byte again.
   */
  lemma ShippedEndsCanWedge() returns (t: Sys)
    ensures ReachableSys(t) && F.CircularWait(t.fw)
    ensures forall acts :: RunFrom(t, acts).Some? ==>
              && F.CircularWait(RunFrom(t, acts).value.fw)
              && RunFrom(t, acts).value.fw.received == t.fw.received && RunFrom(t, acts).value.fw.uartOut == t.fw.uartOut
  {
    hide Reaches, SysInv, Served, UpPipe, Tokens, ReachableSys, Waiting;
    var s := Start();
    t := Connected1();
    t := Ask(s, t);
    t := Type(s, t, F.TO_UART_DEPTH + 1);
    t := TakeRequest(s, t);
    t := FillToUart(s, t, F.TO_UART_DEPTH);
    t := FillToTcp(s, t, F.TO_TCP_DEPTH);
    t := CalmStep(s, t, F.TxHandle);
    ReachableFromStart(t);
    forall acts | RunFrom(t, acts).Some?
      ensures F.CircularWait(RunFrom(t, acts).value.fw)
      ensures RunFrom(t, acts).value.fw.received == t.fw.received && RunFrom(t, acts).value.fw.uartOut == t.fw.uartOut
    {
      WedgedForEver(t, acts);
    }
  }

  lemma ReachableFromStart(t: Sys)
    requires Reaches(Start(), t)
    ensures ReachableSys(t)
  {
    var acts :| RunFrom(Start(), acts) == Some(t);
    assert Run(true, false, acts) == Some(t);
  }

  /** The firmware has the reset request in hand. */
  lemma TakeRequest(s: Sys, t: Sys) returns (u: Sys)
    requires Reaches(s, t) && SysInv(t) && Waiting(t) && |UpPipe(t)| > 0 && UpPipe(t)[0] == ResetAsked
    ensures Reaches(s, u) && SysInv(u) && Served(u) && |UpPipe(u)| == |UpPipe(t)| - 1
    ensures u.fw.tcp.Selecting? && u.fw.efd == 0 && u.fw.toUart == [] && u.fw.toTcp == [] && u.fw.rx.RxIdle?
    ensures u.fw.tx == F.TxHolding(ResetAsked)
  {
    hide Reaches, SysInv, Served, UpPipe, Tokens;
    u := Accepted1(s, t);
    u := ReadNext(s, u);
    u := CalmStep(s, u, F.PushToUart);
    u := CalmStep(s, u, F.TxTake);
  }
}
