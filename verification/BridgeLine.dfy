/**
  What line settings the UART ends up with. They are those of the last configuration the firmware
  has handled; with nothing lost and nothing on the way that is the last one the terminal reported.
  A configuration that is lost is never sent again, so the line can stay stale.
 */
module BridgeLine {
  import opened Bytes
  import opened DeviceCodec
  import opened FrameReader
  import opened UartLine
  import opened Termios
  import opened ConnProtocol
  import opened Bridge
  import opened BridgeLinks
  import opened BridgeWire
  import opened BridgeFlow
  import opened BridgeTokens
  import opened BridgeRuns
  import opened BridgeLoss
  import opened BridgeSession
  import opened BridgeServe
  import opened BridgeStuck
  import F = Firmware

  predicate IsConfig(m: Msg) { m.frame.kind == 2 }

  function LastConfig(ms: seq<Msg>): (m: Option<Msg>)
    ensures m.Some? ==> m.value in ms && IsConfig(m.value)
    ensures m.None? ==> forall x <- ms :: !IsConfig(x)
    decreases |ms|
  {
    if ms == [] then None
    else if IsConfig(ms[|ms| - 1]) then Some(ms[|ms| - 1])
    else LastConfig(ms[..|ms| - 1])
  }

  /** The settings a configuration asks for; without one, those installed at start-up. */
  function LineFor(allowFlow: bool, m: Option<Msg>): Line {
    if m.Some? && |m.value.frame.body| == 8 then Applied(F.BootLine, ConfigFieldsOf(m.value.frame.body), allowFlow) else F.BootLine
  }

  /** Configurations within range leave nothing of what was set before. */
  lemma {:induction false} LineIsLastConfig(allowFlow: bool, ms: seq<Msg>)
    requires forall m <- ms :: SentByDaemon(m)
    ensures F.LineOf(allowFlow, ms) == LineFor(allowFlow, LastConfig(ms))
    ensures !allowFlow ==> F.LineOf(allowFlow, ms).flow == F.BootLine.flow
    decreases |ms|
  {
    if ms != [] {
      var before, m := ms[..|ms| - 1], ms[|ms| - 1];
      assert m in ms && forall x :: x in before ==> x in ms;
      LineIsLastConfig(allowFlow, before);
    }
  }

  // ---------------------------------------------------------------- nothing lost, nothing on the way

  /** What the firmware has read and not yet handled. */
  function Unhandled(fw: F.Fw): seq<Msg> { F.TxHand(fw) + fw.toUart + F.TcpHand(fw) }

  /** Everything the daemon has read is either handled or lost. */
  predicate UpIsQuiet(s: Sys) {
    UpPipe(s) == [] && RetainedMsgs(s.task) == [] && Unhandled(s.fw) == []
  }

  /** At all times: the line is that of the last configuration handled. */
  lemma LineIsLastHandled(s: Sys)
    requires ReachableSys(s)
    ensures s.fw.line == LineFor(s.fw.allowFlow, LastConfig(s.fw.handled))
  {
    hide ReachableSys, WireInv, UpInOrder, DownInOrder, UnservedInv, HistoryAgrees, ConnProtocol.Inv, F.NotificationInv, F.LineOf,
      F.InboundConserved, F.OutboundConserved, F.LossBounded, F.UartInOrder, F.RepliesInOrder, F.AllProduced, F.RepliesNeedControl,
      LastConfig, LineFor, SentByDaemon, RetainedFromDaemon;
    ReachableSysInv(s);
    F.HandledFirst(s.fw);
    forall m <- s.fw.handled
      ensures SentByDaemon(m)
    {
      assert m in s.fw.received;
    }
    LineIsLastConfig(s.fw.allowFlow, s.fw.handled);
  }

  /**
    With no step that loses anything and nothing on the way, the UART has the settings of the last
    configuration the daemon has tried to send, and has been written all the data read.
   */
  lemma QuietLineIsCurrent(s: Sys, l: Loss)
    requires ReachedLosing(s, l) && l.up == 0 && UpIsQuiet(s)
    ensures s.fw.line == LineFor(s.fw.allowFlow, LastConfig(s.attempts))
    ensures s.fw.uartOut == F.DataOf(s.attempts)
  {
    hide LineFor, LastConfig, UpPipe, RetainedMsgs, Losses, Run, F.DataOf;
    EveryLossHasItsStep(s, l);
    var r, f, acts :| Run(r, f, acts) == Some(s) && Losses(r, f, acts) == l;
    assert ReachableSys(s);
    LineIsLastHandled(s);
    AllHandled(s);
    assert s.fw.received + [] + [] == s.fw.received;
  }

  lemma AllHandled(s: Sys)
    requires ReachableSys(s) && Unhandled(s.fw) == []
    ensures s.fw.handled == s.fw.received && s.fw.uartOut == F.DataOf(s.fw.handled)
  {
    hide ReachableSys, F.DataOf, F.TxHand, F.TcpHand, WireInv, UpInOrder, DownInOrder, UnservedInv, HistoryAgrees, ConnProtocol.Inv,
      F.NotificationInv, F.OutboundConserved, F.LossBounded, F.UartInOrder, F.RepliesInOrder, F.AllProduced, F.RepliesNeedControl, F.LineOf;
    ReachableSysInv(s);
    assert s.fw.received == s.fw.handled + Unhandled(s.fw);
  }

  // ---------------------------------------------------------------- a lost configuration stays lost

  predicate NoConfig(ms: seq<Msg>) { forall m <- ms :: !IsConfig(m) }

  /** No configuration is anywhere on the way to the UART. */
  predicate NoConfigUnderWay(s: Sys) {
    NoConfig(UpPipe(s)) && NoConfig(RetainedMsgs(s.task)) && NoConfig(Unhandled(s.fw))
  }

  /** What a step tries for the first time. */
  function NewAttempts(s: Sys, t: Sys): seq<Msg>
    requires |s.attempts| <= |t.attempts|
  {
    t.attempts[|s.attempts|..]
  }

  lemma QuietStepDaemon(s: Sys, e: Event)
    requires SysInv(s) && NoConfigUnderWay(s) && CanSys(s, Daemon(e)) && Can(s.task, e)
    ensures var t := DoSys(s, Daemon(e));
            s.attempts <= t.attempts && (NoConfig(NewAttempts(s, t)) ==> NoConfigUnderWay(t)) && t.fw == s.fw
  {
    hide SysInv, WireInv, DoSys, CanSys, Can, LinkMatchesState, LinkEventOf, React, UpPipe, Retained, RetainedMsgs, MsgOf, NewestMoves,
      FromDaemon, Unhandled, Encode, IsConfig;
    var t, le := DoSys(s, Daemon(e)), LinkEventOf(s.task, e);
    DaemonOfInv(s);
    DaemonAlone(s, e);
    MovesWithEvents(s, e);
    ServesWithin(s);
    UpPipeMoves(s, t, le);
    assert NewAttempts(s, t) == Attempted(le);
    if le.Sends? || le.Tears? {
      assert MsgOf(le.m, le.tag) in Attempted(le) || MsgOf(le.m, le.tag) in RetainedMsgs(s.task);
    }
  }

  lemma ServesWithin(s: Sys)
    requires WireInv(s)
    ensures Serving(s) <= |s.sessions|
  {
    hide SessionOk, UpIsWhole, DownIsWhole;
  }

  lemma NoConfigSplits(a: seq<Msg>, b: seq<Msg>)
    ensures NoConfig(a + b) <==> NoConfig(a) && NoConfig(b)
  {
    hide IsConfig;
    assert forall m <- a :: m in a + b;
    assert forall m <- b :: m in a + b;
  }

  predicate HandsHoldNone(fw: F.Fw) {
    NoConfig(F.TxHand(fw)) && NoConfig(fw.toUart) && NoConfig(F.TcpHand(fw))
  }

  lemma HandsOf(fw: F.Fw)
    ensures NoConfig(Unhandled(fw)) <==> HandsHoldNone(fw)
  {
    hide NoConfig, F.TxHand, F.TcpHand;
    NoConfigSplits(F.TxHand(fw) + fw.toUart, F.TcpHand(fw));
    NoConfigSplits(F.TxHand(fw), fw.toUart);
  }

  lemma HandsStep(fw: F.Fw, a: F.Act)
    requires F.Can(fw, a) && HandsHoldNone(fw) && (a.ReadMsg? ==> !IsConfig(a.m))
    ensures HandsHoldNone(F.Do(fw, a)) && F.Do(fw, a).line == fw.line
  {
    hide F.DataIn, F.ReplyTo;
    if a.PushToUart? {
      assert fw.tcp.m in F.TcpHand(fw);
      NoConfigSplits(fw.toUart, [fw.tcp.m]);
    } else if a.TxTake? {
      assert fw.toUart[0] in fw.toUart;
    } else if a.TxHandle? {
      assert fw.tx.m in F.TxHand(fw);
    }
  }

  lemma QuietStepFirmware(fw: F.Fw, a: F.Act)
    requires F.Can(fw, a) && NoConfig(Unhandled(fw)) && (a.ReadMsg? ==> !IsConfig(a.m))
    ensures NoConfig(Unhandled(F.Do(fw, a))) && F.Do(fw, a).line == fw.line
  {
    hide NoConfig, Unhandled, HandsHoldNone, F.Do, F.Can;
    HandsOf(fw);
    HandsStep(fw, a);
    HandsOf(F.Do(fw, a));
  }

  lemma QuietStepDevice(s: Sys, a: F.Act, cut: nat)
    requires SysInv(s) && NoConfigUnderWay(s) && CanSys(s, Device(a, cut))
    ensures var t := DoSys(s, Device(a, cut));
            t.attempts == s.attempts && NoConfigUnderWay(t) && t.fw.line == s.fw.line
  {
    hide F.Inv, F.LineAfter, FrameBytes, ReadFrame, SessionOk, UpIsWhole, DownIsWhole, UpPipe, Unhandled, RetainedMsgs, UpInOrder, DownInOrder,
      UnservedInv, HistoryAgrees, ConnProtocol.Inv, F.Do, IsConfig, Decode;
    var t := DoSys(s, Device(a, cut));
    DevicePipesMove(s, a, cut);
    if a.ReadMsg? {
      assert UpPipe(s)[0] == a.m && UpPipe(s)[1..] == UpPipe(t);
    } else if GivesUp(a) {
      var gone := s.sessions[Serving(s)].upFlight;
      assert UpPipe(t) == UpPipe(s)[|gone|..];
    }
    QuietStepFirmware(s.fw, a);
  }

  lemma QuietStep(s: Sys, act: Act)
    requires SysInv(s) && NoConfigUnderWay(s) && CanSys(s, act)
    ensures var t := DoSys(s, act);
            s.attempts <= t.attempts && (NoConfig(NewAttempts(s, t)) ==> NoConfigUnderWay(t)) && t.fw.line == s.fw.line
  {
    hide SysInv, DoSys, NoConfigUnderWay, Can, Decode;
    match act {
      case Daemon(e) => QuietStepDaemon(s, e);
      case Device(a, cut) => QuietStepDevice(s, a, cut);
    }
  }

  /**
    With no configuration under way the line stays as it is, whatever either end does, losing and
    making connections included, until the terminal reports another change.
   */
  lemma {:induction false} LineWaitsForNextChange(s: Sys, acts: seq<Act>)
    requires SysInv(s) && NoConfigUnderWay(s) && RunFrom(s, acts).Some?
    ensures var t := RunFrom(s, acts).value;
            s.attempts <= t.attempts && (NoConfig(NewAttempts(s, t)) ==> NoConfigUnderWay(t) && t.fw.line == s.fw.line)
    decreases |acts|
  {
    hide SysInv, CanSys, DoSys, NoConfigUnderWay, IsConfig;
    if acts != [] {
      var before, act := acts[..|acts| - 1], acts[|acts| - 1];
      var mid, t := RunFrom(s, before).value, RunFrom(s, acts).value;
      InvFrom(s, before);
      LineWaitsForNextChange(s, before);
      if NoConfigUnderWay(mid) {
        QuietStep(mid, act);
      } else {
        AttemptsGrow(mid, act);
      }
      assert forall m <- NewAttempts(s, mid) :: m in NewAttempts(s, t);
      assert NewAttempts(mid, t) == NewAttempts(s, t)[|mid.attempts| - |s.attempts|..];
    }
  }

  lemma AttemptsGrow(s: Sys, act: Act)
    requires CanSys(s, act)
    ensures s.attempts <= DoSys(s, act).attempts
  {
    hide CanSys, React, Effects, Project, F.Do;
  }

  const Slow := Change(9600, 8, 0, 1, false)

  /** Both ends of a session give it up: what was in it is gone. */
  lemma DropSession(s: Sys, t: Sys) returns (u: Sys)
    requires Reaches(s, t) && SysInv(t) && Served(t) && t.fw.tcp.Selecting? && t.task == Task(Connected, true, None, false)
    ensures Reaches(s, u) && SysInv(u) && u.task == Task(Reconnecting(INITIAL_RECONNECT_BACKOFF, None), false, None, false)
    ensures u.fw == t.fw.(tcp := F.Accepting) && u.sessions == t.sessions && u.attempts == t.attempts
  {
    hide Reaches, SysInv, Encode, Decode, Served;
    u := Next(s, t, Device(F.SelectFails, 0));
    EffectsOfEvents(u.task, LinkLost, u.sessions);
    AttemptsOfEvents(u.task, LinkLost);
    var v := Next(s, u, Daemon(LinkLost));
    assert u.attempts + [] == u.attempts;
    u := v;
  }

  /** The daemon connects again, and the firmware accepts. */
  lemma OpenSession(s: Sys, t: Sys) returns (u: Sys)
    requires Reaches(s, t) && SysInv(t) && t.fw.tcp.Accepting? && t.fw.sessions == |t.sessions|
    requires t.task == Task(Reconnecting(INITIAL_RECONNECT_BACKOFF, None), false, None, false)
    ensures Reaches(s, u) && SysInv(u) && Served(u) && u.task == Task(Connected, true, None, false) && UpPipe(u) == []
    ensures u.fw == t.fw.(tcp := F.Selecting, sessions := t.fw.sessions + 1) && u.attempts == t.attempts
  {
    hide Reaches, SysInv, Encode, Decode, UpPipe;
    EffectsOfEvents(t.task, SleepElapsed(true), t.sessions);
    AttemptsOfEvents(t.task, SleepElapsed(true));
    u := Next(s, t, Daemon(SleepElapsed(true)));
    assert t.attempts + [] == t.attempts;
    u := Next(s, u, Device(F.AcceptClient, 0));
    ServingOfServed(u);
  }

  /** A configuration goes into a session that the firmware gives up unread, and the daemon reconnects. */
  lemma LoseConfiguration() returns (t: Sys)
    ensures Reaches(Start(), t) && SysInv(t) && Served(t) && t.task == Task(Connected, true, None, false)
    ensures UpIsQuiet(t) && t.attempts == [MsgOf(ConfigOf(Slow), 0)] && t.fw.line == F.BootLine
  {
    hide Reaches, SysInv, UpPipe, Encode, Decode;
    t := Connected1();
    t := Sending(Start(), t, PtyChange(Slow, Ok), ConfigOf(Slow), 0);
    t := Accepted1(Start(), t);
    assert [] + [MsgOf(ConfigOf(Slow), 0)] == [MsgOf(ConfigOf(Slow), 0)];
    t := DropSession(Start(), t);
    t := OpenSession(Start(), t);
  }

  /**
    Connected, with nothing on the way, the UART still has its start-up settings although the
    terminal has reported others; and nothing but another report will change that.
   */
  lemma LostConfigurationStaysLost() returns (t: Sys)
    ensures ReachableSys(t) && InSession(t) && UpIsQuiet(t)
    ensures t.fw.line != LineFor(t.fw.allowFlow, LastConfig(t.attempts))
    ensures forall acts :: RunFrom(t, acts).Some? ==>
              var u := RunFrom(t, acts).value;
              t.attempts <= u.attempts && (NoConfig(NewAttempts(t, u)) ==> u.fw.line == t.fw.line)
  {
    hide Reaches, SysInv, ReachableSys, UpPipe, RunFrom;
    t := LoseConfiguration();
    ReachableFromStart(t);
    SlowIsNotBoot(t.fw.allowFlow);
    forall acts | RunFrom(t, acts).Some?
      ensures t.attempts <= RunFrom(t, acts).value.attempts
      ensures NoConfig(NewAttempts(t, RunFrom(t, acts).value)) ==> RunFrom(t, acts).value.fw.line == t.fw.line
    {
      LineWaitsForNextChange(t, acts);
    }
  }

  lemma SlowIsNotBoot(allowFlow: bool)
    ensures LineFor(allowFlow, LastConfig([MsgOf(ConfigOf(Slow), 0)])) != F.BootLine
  {
    ConfigFieldsAgree(ConfigOf(Slow));
  }
}
