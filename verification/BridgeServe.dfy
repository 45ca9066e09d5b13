/**
  What can still happen in a session. Any session the firmware has just accepted can be brought to
  rest: everything on the way arrives. So leftovers of an earlier session do come back, and whether
  a session can go wrong is decided when the firmware accepts it.
 */
module BridgeServe {
  import opened Bytes
  import opened DeviceCodec
  import opened FrameReader
  import opened ConnProtocol
  import opened Bridge
  import opened BridgeLinks
  import opened BridgeWire
  import opened BridgeFlow
  import opened BridgeTokens
  import opened BridgeRuns
  import opened BridgeSession
  import opened FirmwareFlush
  import F = Firmware

  ghost predicate Reaches(s: Sys, t: Sys) {
    exists acts :: RunFrom(s, acts) == Some(t)
  }

  lemma ReachesItself(s: Sys)
    ensures Reaches(s, s)
  {
    assert RunFrom(s, []) == Some(s);
  }

  lemma Next(s: Sys, t: Sys, act: Act) returns (u: Sys)
    requires Reaches(s, t) && SysInv(t) && CanSys(t, act)
    ensures Reaches(s, u) && SysInv(u) && u == DoSys(t, act)
  {
    hide CanSys, DoSys, SysInv;
    var acts :| RunFrom(s, acts) == Some(t);
    u := DoSys(t, act);
    assert (acts + [act])[..|acts|] == acts;
    assert RunFrom(s, acts + [act]) == Some(u);
    SysStep(t, act);
  }

  /** The firmware serves the session the daemon is in. */
  predicate Served(s: Sys) {
    InSession(s) && s.fw.sessions == |s.sessions| && !s.fw.tcp.Accepting?
  }

  // ---------------------------------------------------------------- the device's turn

  /** A step of the device that gives nothing up keeps what is on the way, and who waits. */
  lemma ServeStep(s: Sys, t: Sys, a: F.Act) returns (u: Sys)
    requires Reaches(s, t) && SysInv(t) && Served(t) && CanSys(t, Device(a, 0)) && !GivesUp(a) && !a.AcceptClient?
    ensures Reaches(s, u) && SysInv(u) && Served(u) && u.fw == F.Do(t.fw, a) && u.task == t.task
    ensures Tokens(u) == Tokens(t) && |u.sessions| == |t.sessions|
    ensures UpPipe(t) == (if a.ReadMsg? then [a.m] else []) + UpPipe(u)
  {
    hide Reaches, SysInv, Tokens, UpPipe, DownPipe, F.LineAfter, F.ReplyTo, F.DataIn, Decode, ReadFrame, FrameBytes;
    u := Next(s, t, Device(a, 0));
    ServeKeeps(t, a);
  }

  lemma ServeKeeps(t: Sys, a: F.Act)
    requires SysInv(t) && Served(t) && CanSys(t, Device(a, 0)) && !GivesUp(a) && !a.AcceptClient?
    ensures var u := DoSys(t, Device(a, 0));
            && Tokens(u) == Tokens(t)
            && UpPipe(t) == (if a.ReadMsg? then [a.m] else []) + UpPipe(u)
  {
    hide F.Inv, F.Do, WireInv, UpInOrder, DownInOrder, UnservedInv, HistoryAgrees, ConnProtocol.Inv, Tokens, UpPipe, DownPipe,
      FwPipe, Toks, CanSys, DoSys;
    ServingOfServed(t);
    DeviceTokens(t, a, 0);
    DevicePipesMove(t, a, 0);
    assert [] + UpPipe(t) == UpPipe(t);
  }

  lemma ServingOfServed(t: Sys)
    requires Served(t)
    ensures Serving(t) == |t.sessions| - 1 && t.task.linked
    ensures UpPipe(t) == Newest(t).upFlight
  {
    assert t.sessions[|t.sessions| - 1..] == [Newest(t)];
    FlightsOne(Newest(t));
  }

  /** What a calm schedule of the firmware leaves alone. */
  predicate Kept(t: Sys, u: Sys) {
    u.task == t.task && Tokens(u) == Tokens(t) && |u.sessions| == |t.sessions| && UpPipe(u) == UpPipe(t)
  }

  lemma CalmStep(s: Sys, t: Sys, a: F.Act) returns (u: Sys)
    requires Reaches(s, t) && SysInv(t) && Served(t) && F.Can(t.fw, a) && Calm(a)
    ensures Reaches(s, u) && SysInv(u) && Served(u) && u.fw == F.Do(t.fw, a) && Kept(t, u)
  {
    hide Reaches, SysInv, Tokens, UpPipe, F.Do, F.Can, Decode, ReadFrame, FrameBytes;
    ServingOfServed(t);
    u := ServeStep(s, t, a);
    assert [] + UpPipe(u) == UpPipe(u);
  }

  lemma {:induction false} ServeCalmly(s: Sys, t: Sys, acts: seq<F.Act>) returns (u: Sys)
    requires Reaches(s, t) && SysInv(t) && Served(t) && F.Exec(t.fw, acts).Some? && forall a <- acts :: Calm(a)
    ensures Reaches(s, u) && SysInv(u) && Served(u) && u.fw == F.Exec(t.fw, acts).value && Kept(t, u)
    decreases |acts|
  {
    hide Reaches, SysInv, Served, Tokens, UpPipe, F.Do, F.Can, Calm;
    if acts == [] {
      u := t;
    } else {
      var mid := ServeCalmly(s, t, acts[..|acts| - 1]);
      u := CalmStep(s, mid, acts[|acts| - 1]);
    }
  }

  /** The firmware waits in `select` and holds nothing. */
  predicate AtRest(fw: F.Fw) {
    fw.tcp.Selecting? && fw.efd == 0 && fw.toTcp == [] && fw.tx.TxIdle? && fw.toUart == []
  }

  lemma FlushFirmware(s: Sys, t: Sys) returns (u: Sys)
    requires Reaches(s, t) && SysInv(t) && Served(t) && t.fw.tcp.Selecting?
    ensures Reaches(s, u) && SysInv(u) && Served(u) && AtRest(u.fw) && Kept(t, u)
  {
    hide Reaches, WireInv, UpInOrder, DownInOrder, UnservedInv, HistoryAgrees, ConnProtocol.Inv, Served, Kept, F.NotificationInv,
      F.ConservationInv, F.RepliesNeedControl, ReadFromDaemon, RetainedFromDaemon;
    LeadsNowhere(t.fw);
    var gw := Flush(t.fw, t.fw);
    var acts :| F.Exec(t.fw, acts) == Some(gw) && forall a <- acts :: Calm(a);
    u := ServeCalmly(s, t, acts);
  }

  lemma FrontIsReadable(bytes: seq<byte>, flight: seq<Msg>)
    requires CarriesUp(bytes, flight) && flight != []
    ensures ReadFrame(bytes).Item? && ReadFrame(bytes).msg == flight[0].frame
  {
    hide FrameBytes, ReadFrame;
    assert bytes[0..] == bytes;
    StartsSplit(bytes, flight);
    ReadFrameInvertsFrameBytes(flight[0].frame, bytes[|FrameBytes(flight[0].frame)|..]);
  }

  lemma NextIsReadable(t: Sys)
    requires SysInv(t) && Served(t) && t.fw.tcp.Reading? && UpPipe(t) != []
    ensures CanSys(t, Device(F.ReadMsg(UpPipe(t)[0]), 0))
  {
    hide UpInOrder, DownInOrder, UnservedInv, HistoryAgrees, ConnProtocol.Inv, F.Inv, CarriesUp, CarriesDown, ReadFrame, Decode, UpPipe;
    ServingOfServed(t);
    assert SessionOk(Newest(t));
    FrontIsReadable(Newest(t).up, Newest(t).upFlight);
  }

  /** One frame of the session goes through the firmware. */
  lemma ServeOne(s: Sys, t: Sys) returns (u: Sys)
    requires Reaches(s, t) && SysInv(t) && Served(t) && AtRest(t.fw) && UpPipe(t) != []
    ensures Reaches(s, u) && SysInv(u) && Served(u) && AtRest(u.fw)
    ensures u.task == t.task && Tokens(u) == Tokens(t) && |u.sessions| == |t.sessions| && |UpPipe(u)| < |UpPipe(t)|
  {
    hide Reaches, SysInv, Served, Tokens, UpPipe, CanSys;
    u := CalmStep(s, t, F.SelectReturns(true));
    NextIsReadable(u);
    u := ServeStep(s, u, F.ReadMsg(UpPipe(u)[0]));
    u := CalmStep(s, u, F.PushToUart);
    u := FlushFirmware(s, u);
  }

  lemma {:induction false} ServeAll(s: Sys, t: Sys) returns (u: Sys)
    requires Reaches(s, t) && SysInv(t) && Served(t) && AtRest(t.fw)
    ensures Reaches(s, u) && SysInv(u) && Served(u) && AtRest(u.fw) && UpPipe(u) == []
    ensures u.task == t.task && Tokens(u) == Tokens(t) && |u.sessions| == |t.sessions|
    decreases |UpPipe(t)|
  {
    hide Reaches, SysInv, Served, Tokens, UpPipe, AtRest;
    if UpPipe(t) == [] {
      u := t;
    } else {
      u := ServeOne(s, t);
      u := ServeAll(s, u);
    }
  }

  /** Everything on the way reaches the daemon's end of the session. */
  lemma AllArrives(s: Sys, t: Sys) returns (u: Sys)
    requires Reaches(s, t) && SysInv(t) && Served(t) && t.fw.tcp.Selecting?
    ensures Reaches(s, u) && SysInv(u) && u.task == t.task && |u.sessions| == |t.sessions| && InSession(u)
    ensures Toks(Newest(u).downFlight) == Tokens(t)
  {
    hide Reaches, SysInv, Tokens, UpPipe, AtRest;
    u := FlushFirmware(s, t);
    u := ServeAll(s, u);
    RestingTokens(u);
  }

  lemma RestingTokens(t: Sys)
    requires Served(t) && AtRest(t.fw) && UpPipe(t) == []
    ensures Tokens(t) == Toks(Newest(t).downFlight)
  {
    hide UpPipe, Toks;
    assert FwPipe(t.fw) == [];
    assert Toks([]) == [] by { ToksOne(F.Msg(Frame(0, []), 0)); }
    assert Toks(DownPipe(t)) + [] == Toks(DownPipe(t));
  }

  // ---------------------------------------------------------------- the daemon's turn

  /** The response that can be decoded next is not an answer to the request it stems from. */
  predicate Misanswers(s: Sys, e: Event) {
    && e.Incoming? && e.m.ControlRes? && CanSys(s, Daemon(e)) && Newest(s).downFlight != []
    && React(s.task, e).1 != [Decoded(e.m), Answered(Newest(s).downFlight[0].tag, Answer(e.m.res))]
  }

  /** Some continuation of the session leads to a response that is unsolicited or given to the wrong asker. */
  ghost predicate CanGoWrong(s: Sys) {
    exists t, e :: Reaches(s, t) && SameSession(s, t) && Misanswers(t, e)
  }

  lemma FrontIsDecodable(bytes: seq<byte>, flight: seq<Msg>)
    requires CarriesDown(bytes, flight) && flight != []
    ensures Decode(bytes).Item? && Decode(bytes).msg == DeviceOf(flight[0]) && ZeroPadded(DeviceOf(flight[0]))
    ensures F.Produced(flight[0])
  {
    hide FrameBytes, Decode, DeviceOf, F.Produced;
    assert bytes[0..] == bytes;
    StartsSplit(bytes, flight);
    ProducedIsEncoded(flight[0]);
    DecodeInvertsEncode(DeviceOf(flight[0]), bytes[|FrameBytes(flight[0].frame)|..]);
  }

  /** The oldest frame can be decoded, and written through. */
  lemma OldestCanCome(t: Sys) returns (m: DeviceMessage)
    requires SysInv(t) && InSession(t) && t.task.state.Connected? && Newest(t).downFlight != []
    ensures F.Produced(Newest(t).downFlight[0]) && m == DeviceOf(Newest(t).downFlight[0])
    ensures CanSys(t, Daemon(Incoming(m, Written)))
  {
    hide UpInOrder, DownInOrder, UnservedInv, HistoryAgrees, OutboundConserved, AnswersBalance, AnswersAreEarned,
      WritesFollowPayloads, F.Inv, CarriesUp, CarriesDown, Decode, DeviceOf, F.Produced;
    assert SessionOk(Newest(t));
    FrontIsDecodable(Newest(t).down, Newest(t).downFlight);
    m := DeviceOf(Newest(t).downFlight[0]);
  }

  lemma DecodingTakes(t: Sys, m: DeviceMessage)
    requires SysInv(t) && t.task.state.Connected? && InSession(t) && CanSys(t, Daemon(Incoming(m, Written)))
    ensures var u := DoSys(t, Daemon(Incoming(m, Written)));
            && Newest(t).downFlight != [] && |u.sessions| == |t.sessions|
            && (u.task.linked ==> Newest(u).downFlight == Newest(t).downFlight[1..])
  {
    hide SysInv, WireInv, DoSys, CanSys, LinkMatchesState, UpPipe, SessionOk, UpIsWhole, DownIsWhole, Retained, RetainedMsgs, MsgOf,
      DeviceOf, F.Produced, Attempted, Encode, FromDaemon, StateChange;
    DaemonOfInv(t);
    MovesWithEvents(t, Incoming(m, Written));
  }

  lemma DecodeOne(s: Sys, t: Sys, m: DeviceMessage) returns (u: Sys)
    requires Reaches(s, t) && SysInv(t) && InSession(t) && t.task.state.Connected? && CanSys(t, Daemon(Incoming(m, Written)))
    ensures Reaches(s, u) && SysInv(u) && u.task == React(t.task, Incoming(m, Written)).0
    ensures Newest(t).downFlight != [] && |u.sessions| == |t.sessions|
    ensures u.task.linked ==> Newest(u).downFlight == Newest(t).downFlight[1..]
  {
    hide Reaches, React, SysInv, DoSys, Decode;
    u := Next(s, t, Daemon(Incoming(m, Written)));
    DaemonAlone(t, Incoming(m, Written));
    DecodingTakes(t, m);
  }

  /** With more control messages arrived than requests waiting, some response is nobody's or the wrong one's. */
  lemma {:induction false} DecodeUntilWrong(s: Sys, t: Sys)
    requires Reaches(s, t) && SysInv(t) && SameSession(s, t) && t.task.state.Connected?
    requires |Toks(Newest(t).downFlight)| > |Due(t.task)|
    ensures CanGoWrong(s)
    decreases |Newest(t).downFlight|
  {
    hide Reaches, SysInv, DoSys, CanSys, Decode, F.Produced, DeviceOf, Toks, Tok;
    var flight := Newest(t).downFlight;
    assert flight != [] by { ToksOne(F.Msg(Frame(0, []), 0)); }
    var m := OldestCanCome(t);
    if !Misanswers(t, Incoming(m, Written)) {
      var u := DecodeOne(s, t, m);
      ToksCons(flight);
      TokOfTaken(flight[0]);
      DecodeUntilWrong(s, u);
    }
  }

  /** A retained message goes out first, and the task is connected. */
  lemma Connect(s: Sys, t: Sys) returns (u: Sys)
    requires Reaches(s, t) && SysInv(t) && Served(t)
    ensures Reaches(s, u) && SysInv(u) && Served(u) && u.task.state.Connected? && Due(u.task) == Due(t.task)
    ensures u.fw == t.fw && Tokens(u) == Tokens(t) && |u.sessions| == |t.sessions|
  {
    hide Reaches, Can, F.Inv, WireInv, UpInOrder, DownInOrder, UnservedInv, HistoryAgrees, OutboundConserved, AnswersBalance,
      AnswersAreEarned, WritesFollowPayloads, DefensiveBranchesUnused, Project, Effects, Tokens, Encode, CanSys;
    u := t;
    if t.task.state.Resyncing? {
      ResyncCanCome(t);
      u := Next(s, t, Daemon(ResyncDone(Ok)));
      ResyncKeeps(t);
    }
  }

  lemma ResyncCanCome(t: Sys)
    requires t.task.state.Resyncing? && !t.task.done
    ensures CanSys(t, Daemon(ResyncDone(Ok)))
  {
  }

  lemma ResyncKeeps(t: Sys)
    requires SysInv(t) && Served(t) && t.task.state.Resyncing? && CanSys(t, Daemon(ResyncDone(Ok)))
    ensures var u := DoSys(t, Daemon(ResyncDone(Ok)));
            && u.task == Task(Connected, true, t.task.waiting, t.task.done) && u.fw == t.fw
            && Tokens(u) == Tokens(t) && |u.sessions| == |t.sessions|
  {
    hide SysInv, WireInv, DoSys, Can, UpPipe, DownPipe, SessionOk, UpIsWhole, DownIsWhole, MsgOf, Tok, Tokens,
      DeviceOf, F.Produced, Encode, Effects;
    var e, u := ResyncDone(Ok), DoSys(t, Daemon(ResyncDone(Ok)));
    DaemonOfInv(t);
    DaemonAlone(t, e);
    MovesWithEvents(t, e);
    PipesMoveWithEvents(t, e);
    ServingOfServed(t);
    assert t.task.state.message in Retained(t.task.state);
    TokOfSent(t.task.state.message, 0);
    TokensAfterSend(t, u, MsgOf(t.task.state.message, 0));
    assert Tokens(t) + [] == Tokens(t);
  }

  // ---------------------------------------------------------------- the exact condition

  lemma ExtendsReachable(s: Sys, act: Act)
    requires ReachableSys(s) && CanSys(s, act)
    ensures ReachableSys(DoSys(s, act))
  {
    hide CanSys, DoSys, InitSys;
    var r, f, acts :| Run(r, f, acts) == Some(s);
    assert (acts + [act])[..|acts|] == acts;
    assert Run(r, f, acts + [act]) == Some(DoSys(s, act));
  }

  lemma SettledNeverGoesWrong(s: Sys)
    requires ReachableSys(s) && Settled(s)
    ensures !CanGoWrong(s)
  {
    hide ReachableSys, Settled, SameSession, Decode, CanSys;
    if CanGoWrong(s) {
      var t, e :| Reaches(s, t) && SameSession(s, t) && Misanswers(t, e);
      var acts :| RunFrom(s, acts) == Some(t);
      AnswersAreTheAskers(s, acts, e.m.res, e.write);
    }
  }

  /** Leftovers arrive, and then there is one response too many. */
  lemma LeftoversGoWrong(s: Sys)
    requires SysInv(s) && Served(s) && s.fw.tcp.Selecting? && |Tokens(s)| > |Due(s.task)|
    ensures CanGoWrong(s)
  {
    hide Reaches, SysInv, Tokens, Toks, CanGoWrong;
    ReachesItself(s);
    var t := Connect(s, s);
    t := AllArrives(s, t);
    DecodeUntilWrong(s, t);
  }

  /**
    When the firmware accepts the session the daemon is in: no response in that session will ever be
    unsolicited or given to the wrong asker, whatever happens in it, if and only if the firmware
    holds no control message at that moment.
   */
  lemma SessionGoesWrongIff(s: Sys)
    requires ReachableSys(s) && AcceptsNewest(s)
    ensures CanSys(s, Device(F.AcceptClient, 0))
    ensures CanGoWrong(DoSys(s, Device(F.AcceptClient, 0))) <==> Toks(FwPipe(s.fw)) != []
  {
    hide ReachableSys, SysInv, Tokens, Toks, FwPipe, CanGoWrong, Settled;
    AcceptSettlesIff(s);
    var t := DoSys(s, Device(F.AcceptClient, 0));
    ExtendsReachable(s, Device(F.AcceptClient, 0));
    ReachableSysInv(t);
    if Toks(FwPipe(s.fw)) == [] {
      SettledNeverGoesWrong(t);
    } else {
      LeftoversGoWrong(t);
    }
  }
}
