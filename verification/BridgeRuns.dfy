/** The laws of the whole bridge over arbitrary runs, from one end to the other. */
module BridgeRuns {
  import opened Bytes
  import opened DeviceCodec
  import opened FrameReader
  import opened Subsequences
  import opened UartLine
  import opened ConnProtocol
  import opened Bridge
  import opened BridgeLinks
  import opened BridgeWire
  import opened BridgeFlow
  import opened BridgeTokens
  import F = Firmware

  /** The daemon's history agrees with what the composed system logs. */
  predicate HistoryAgrees(s: Sys) {
    && s.attempts == Project(s.h, AttemptView)
    && Project(s.h, PayloadView) == F.DataOf(s.got)
  }

  predicate RetainedFromDaemon(t: Task) {
    forall m <- Retained(t.state) :: FromDaemon(m)
  }

  ghost predicate SysInv(s: Sys) {
    && ConnProtocol.Inv(Log(s.task, s.h)) && RetainedFromDaemon(s.task) && HistoryAgrees(s)
    && F.Inv(s.fw) && ReadFromDaemon(s.fw)
    && WireInv(s) && UpInOrder(s) && DownInOrder(s) && UnservedInv(s)
  }

  lemma DeliverPayload(t: Task, m: DeviceMessage, write: Write)
    requires m.Data? && write.Broken? ==> write.cut < m.size
    ensures Project(Deliver(t, m, write).1, PayloadView) == if m.Data? then m.body[..m.size] else []
  {
    hide Project;
    ProjectShort(Deliver(t, m, write).1, PayloadView);
  }

  lemma PayloadOfEvents(t: Task, e: Event)
    requires Can(t, e)
    ensures Project(React(t, e).1, PayloadView) == if e.Incoming? && e.m.Data? then e.m.body[..e.m.size] else []
  {
    hide Encode, FromBytes, NextBackoff, Project, Deliver;
    if e.Incoming? {
      DeliverPayload(t, e.m, e.write);
    } else {
      assert forall a <- React(t, e).1 :: PayloadView(a) == [];
      ProjectQuiet(React(t, e).1, PayloadView);
    }
  }

  lemma PayloadOfProduced(m: Msg)
    requires F.Produced(m)
    ensures var d := DeviceOf(m);
            F.DataIn(m) == if d.Data? then d.body[..d.size] else []
  {
  }

  lemma HistoryStep(s: Sys, e: Event)
    requires WireInv(s) && LinkMatchesState(s.task) && RetainedFromDaemon(s.task) && HistoryAgrees(s) && CanSys(s, Daemon(e))
    ensures HistoryAgrees(DoSys(s, Daemon(e)))
  {
    hide React, Can, LinkMatchesState, LinkEventOf, Effects, SessionOk, UpIsWhole, DownIsWhole, Project, Tokens, MsgOf, Decode,
      Encode, DeviceOf, F.Produced, F.DataOf, F.DataIn, StateChange, Attempted, RetainedMsgs, WireInv;
    var le, did := LinkEventOf(s.task, e), React(s.task, e).1;
    MovesWithEvents(s, e);
    TakenIsDecoded(s.task, e);
    ProjectAppend(s.h, did, AttemptView);
    ProjectAppend(s.h, did, PayloadView);
    PayloadOfEvents(s.task, e);
    if le.Takes? {
      var m := Newest(s).downFlight[0];
      PayloadOfProduced(m);
      F.DataOfSnoc(s.got, m);
    } else {
      assert Project(s.h, PayloadView) + [] == Project(s.h, PayloadView);
    }
  }

  lemma SysStepDaemon(s: Sys, e: Event)
    requires SysInv(s) && CanSys(s, Daemon(e))
    ensures SysInv(DoSys(s, Daemon(e)))
  {
    hide F.Inv, WireInv, UpInOrder, DownInOrder, UnservedInv, HistoryAgrees, Can, React, Effects, Project, Tokens, ReadFromDaemon,
      LinkMatchesState, OutboundConserved, AnswersBalance, AnswersAreEarned, WritesFollowPayloads, DefensiveBranchesUnused,
      Decode, LinkEventOf;
    StateChangeOfEvents(s.task, e);
    HistoryStep(s, e);
    WireStepDaemon(s, e);
    UpStepDaemon(s, e);
    DownStepDaemon(s, e);
    UnservedStepDaemon(s, e);
    ConnProtocol.InvStep(Log(s.task, s.h), e);
  }

  lemma ReadFromDaemonStep(s: Sys, a: F.Act, cut: nat)
    requires WireInv(s) && ReadFromDaemon(s.fw) && CanSys(s, Device(a, cut))
    ensures ReadFromDaemon(F.Do(s.fw, a))
  {
    hide F.LineAfter, F.ReplyTo, F.DataIn, FrameBytes, ReadFrame, SessionOk, UpIsWhole, DownIsWhole, SentByDaemon;
    if a.ReadMsg? {
      ReadIsOldest(s, a.m);
    }
  }

  lemma SysStepDevice(s: Sys, a: F.Act, cut: nat)
    requires SysInv(s) && CanSys(s, Device(a, cut))
    ensures SysInv(DoSys(s, Device(a, cut)))
  {
    hide F.Inv, WireInv, UpInOrder, DownInOrder, UnservedInv, Project, Tokens, ReadFromDaemon, ReadFrame, F.Do, F.Can, ConnProtocol.Inv,
      DeviceEffect;
    F.InvStep(s.fw, a);
    ReadFromDaemonStep(s, a, cut);
    WireStepDevice(s, a, cut);
    UpStepDevice(s, a, cut);
    DownStepDevice(s, a, cut);
    UnservedStepDevice(s, a, cut);
  }

  lemma InitIsInOrder(s: Sys)
    requires s.fw.received == [] && UpPipe(s) == [] && RetainedMsgs(s.task) == []
    requires s.got == [] && DownPipe(s) == [] && F.SendHand(s.fw) == [] && s.fw.toTcp == []
    ensures UpInOrder(s) && DownInOrder(s)
  {
    hide UpPipe, RetainedMsgs, DownPipe, F.SendHand, Sub;
    assert s.fw.received + UpPipe(s) + RetainedMsgs(s.task) == [];
    assert s.got + DownPipe(s) + F.SendHand(s.fw) + s.fw.toTcp == [];
    SubEmpty(s.attempts);
    SubEmpty(s.fw.pushed);
  }

  lemma InitHolds(r: bool, f: bool)
    ensures SysInv(InitSys(r, f))
  {
    hide UpInOrder, DownInOrder, F.Inv, ConnProtocol.Inv;
    F.InvOverRuns(r, f, []);
    ConnProtocol.InvOverRuns([]);
    InitIsInOrder(InitSys(r, f));
  }

  lemma {:induction false} SysInvOverRuns(r: bool, f: bool, acts: seq<Act>)
    requires Run(r, f, acts).Some?
    ensures SysInv(Run(r, f, acts).value)
    decreases |acts|
  {
    hide SysInv, CanSys, DoSys, InitSys;
    if acts == [] {
      InitHolds(r, f);
    } else {
      var s, act := Run(r, f, acts[..|acts| - 1]).value, acts[|acts| - 1];
      SysInvOverRuns(r, f, acts[..|acts| - 1]);
      match act {
        case Daemon(e) => SysStepDaemon(s, e);
        case Device(a, cut) => SysStepDevice(s, a, cut);
      }
    }
  }

  lemma ReachableSysInv(s: Sys)
    requires ReachableSys(s)
    ensures SysInv(s)
  {
    hide SysInv, CanSys, DoSys, InitSys;
    var r, f, acts :| Run(r, f, acts) == Some(s);
    SysInvOverRuns(r, f, acts);
  }

  /**
    From the terminal to the UART: across any number of sessions, what the firmware reads is an
    order-preserving, duplicate-free selection of what the daemon tried to send, and the UART gets
    the data of what the firmware has handled of it, in that order.
   */
  lemma TerminalToUart(s: Sys)
    requires ReachableSys(s)
    ensures Sub(s.fw.received, Project(s.h, AttemptView))
    ensures s.fw.handled <= s.fw.received
    ensures s.fw.uartOut == F.DataOf(s.fw.handled)
  {
    hide Project, CanSys, DoSys, InitSys, WireInv, UnservedInv, DownInOrder, UpInOrder, ConnProtocol.Inv, F.Inv, Sub, F.DataOf;
    ReachableSysInv(s);
    ReadInOrder(s);
    HandledIsRead(s.fw);
  }

  lemma ReadInOrder(s: Sys)
    requires UpInOrder(s)
    ensures Sub(s.fw.received, s.attempts)
  {
    hide Sub, UpPipe, RetainedMsgs;
    var rest := UpPipe(s) + RetainedMsgs(s.task);
    assert s.fw.received + rest + [] == s.fw.received + UpPipe(s) + RetainedMsgs(s.task);
    assert s.fw.received + [] == s.fw.received;
    SubDrop(s.fw.received, rest, [], s.attempts);
  }

  lemma HandledIsRead(fw: F.Fw)
    requires F.Inv(fw)
    ensures fw.handled <= fw.received && fw.uartOut == F.DataOf(fw.handled)
  {
    hide F.NotificationInv, F.RepliesNeedControl, F.InboundConserved, F.OutboundConserved, F.LossBounded, F.UartInOrder;
    hide F.RepliesInOrder, F.AllProduced, F.DataOf, F.LineAfter;
    F.HandledFirst(fw);
  }

  lemma DecodedInOrder(s: Sys)
    requires DownInOrder(s)
    ensures Sub(s.got, s.fw.pushed)
  {
    hide Sub, DownPipe, F.SendHand;
    var rest := DownPipe(s) + F.SendHand(s.fw) + s.fw.toTcp;
    assert s.got + rest + [] == s.got + DownPipe(s) + F.SendHand(s.fw) + s.fw.toTcp;
    assert s.got + [] == s.got;
    SubDrop(s.got, rest, [], s.fw.pushed);
  }

  /**
    From the UART to the terminal: the frames the daemon decodes are an order-preserving,
    duplicate-free selection of those pushed, which carry the UART's bytes, and the terminal gets
    the data of the decoded ones, in order, cut short only by shutting down.
   */
  lemma UartToTerminal(s: Sys)
    requires ReachableSys(s)
    ensures Sub(s.got, s.fw.pushed)
    ensures s.fw.uartIn == F.DataOf(s.fw.pushed) + F.DataOf(F.RxHand(s.fw))
    ensures Project(s.h, WrittenView) <= F.DataOf(s.got)
    ensures !s.task.state.ShuttingDown? ==> Project(s.h, WrittenView) == F.DataOf(s.got)
  {
    hide Project, CanSys, DoSys, InitSys, WireInv, UnservedInv, UpInOrder, DownInOrder, Sub, F.DataOf;
    ReachableSysInv(s);
    DecodedInOrder(s);
    assert WritesFollowPayloads(Log(s.task, s.h));
  }

  /** The two implementations never disagree on the wire. */
  lemma NoMalformedFrames(s: Sys)
    requires ReachableSys(s)
    ensures forall ses <- s.sessions :: !Decode(ses.down).Bad?
    ensures forall m <- s.fw.received :: SentByDaemon(m)
  {
    hide CanSys, DoSys, InitSys, UnservedInv, UpInOrder, DownInOrder, ConnProtocol.Inv, F.Inv, Decode, SentByDaemon, CarriesUp, CarriesDown;
    ReachableSysInv(s);
    forall ses <- s.sessions
      ensures !Decode(ses.down).Bad?
    {
      assert SessionOk(ses);
      DownIsNeverBad(ses.down, ses.downFlight);
    }
  }

  lemma DownIsNeverBad(bytes: seq<byte>, flight: seq<Msg>)
    requires CarriesDown(bytes, flight)
    ensures !Decode(bytes).Bad?
  {
    hide FrameBytes, Decode, F.Produced, DeviceOf;
    assert bytes[0..] == bytes;
    if flight != [] {
      StartsSplit(bytes, flight);
      ProducedIsEncoded(flight[0]);
      DecodeInvertsEncode(DeviceOf(flight[0]), bytes[|FrameBytes(flight[0].frame)|..]);
    }
  }

  /** Every configuration the firmware handles is within range, so it is applied exactly. */
  lemma ConfigurationsAreApplied(s: Sys, m: Msg, line: Line)
    requires ReachableSys(s) && m in s.fw.received && m.frame.kind == 2
    ensures |m.frame.body| == 8
    ensures var c := ConfigFieldsOf(m.frame.body);
            && F.LineAfter(line, s.fw.allowFlow, m) == Applied(line, c, s.fw.allowFlow)
            && SettingsOf(Applied(line, c, s.fw.allowFlow)) == (c.dataBits as int, c.stopBits as int, c.parity as int)
  {
    hide CanSys, DoSys, InitSys;
    NoMalformedFrames(s);
    assert SentByDaemon(m);
    AppliedIffInRange(line, ConfigFieldsOf(m.frame.body), s.fw.allowFlow);
  }
}
