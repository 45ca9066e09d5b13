/** A run in which an answer is not the asker's own: it was left over from the session before. */
module BridgeStale {
  import opened Bytes
  import opened Streams
  import opened DeviceCodec
  import opened FrameReader
  import opened ConnProtocol
  import opened Bridge
  import opened BridgeLinks
  import F = Firmware

  lemma Step(s: Sys, act: Act) returns (t: Sys)
    requires ReachableSys(s) && CanSys(s, act)
    ensures ReachableSys(t) && t == DoSys(s, act)
  {
    hide CanSys, DoSys;
    var r, f, acts :| Run(r, f, acts) == Some(s);
    t := DoSys(s, act);
    assert (acts + [act])[..|acts|] == acts;
    assert Run(r, f, acts + [act]) == Some(t);
  }

  const Request := [3, 1, 1]
  const Response := [4, 1, 1]

  /** The reset request, its frame and its answer as bytes. */
  lemma TheBytes(tag: nat)
    ensures Encode(ControlReq(Reset)) == Request && MsgOf(ControlReq(Reset), tag) == F.Msg(Frame(3, [1]), tag)
    ensures ReadFrame(Request) == Item(Frame(3, [1]), 3)
    ensures FrameBytes(Frame(4, [1])) == Response && Decode(Response) == Item(ControlRes(Done), 3)
  {
    assert Request[2..3] == [1];
  }

  predicate Offline(s: Sys) {
    s.task == Task(Reconnecting(100, None), false, None, false)
  }

  predicate Asking(s: Sys, id: nat) {
    s.task == Task(Connected, true, Some(id), false)
  }

  /** Connect and send a reset request. */
  lemma ConnectAndAsk(s: Sys, id: nat) returns (t: Sys)
    requires ReachableSys(s) && Offline(s)
    ensures ReachableSys(t) && Asking(t, id) && t.fw == s.fw
    ensures t.sessions == s.sessions + [Session(Request, [F.Msg(Frame(3, [1]), id)], [], [])]
  {
    hide ReachableSys, Tokens, Encode, FrameOf;
    t := Connect(s);
    TheBytes(id);
    var e := HwRequest(id, Reset, Ok);
    EffectsOfEvents(t.task, e, t.sessions);
    assert Newest(t) == NewSession;
    SentOnNew(s.sessions, id);
    t := Step(t, Daemon(e));
  }

  lemma SentOnNew(ss: seq<Session>, id: nat)
    ensures Effect(ss + [NewSession], Accepted(ControlReq(Reset), id))
         == ss + [Session(Request, [F.Msg(Frame(3, [1]), id)], [], [])]
  {
    hide Encode, FrameOf;
    TheBytes(id);
    assert [] + Encode(ControlReq(Reset)) == Request;
    assert [] + [MsgOf(ControlReq(Reset), id)] == [F.Msg(Frame(3, [1]), id)];
  }

  lemma Connect(s: Sys) returns (t: Sys)
    requires ReachableSys(s) && Offline(s)
    ensures ReachableSys(t) && t.task == Task(Connected, true, None, false) && t.fw == s.fw
    ensures t.sessions == s.sessions + [NewSession]
  {
    hide ReachableSys, Tokens;
    EffectsOfEvents(s.task, SleepElapsed(true), s.sessions);
    t := Step(s, Daemon(SleepElapsed(true)));
  }

  lemma Lose(s: Sys, id: nat) returns (t: Sys)
    requires ReachableSys(s) && Asking(s, id)
    ensures ReachableSys(t) && Offline(t) && t.fw == s.fw && t.sessions == s.sessions
  {
    hide ReachableSys, Tokens;
    EffectsOfEvents(s.task, LinkLost, s.sessions);
    t := Step(s, Daemon(LinkLost));
  }

  /** A step of the device that leaves the sessions alone. */
  lemma Device1(s: Sys, a: F.Act) returns (t: Sys)
    requires ReachableSys(s) && F.Can(s.fw, a) && !a.ReadMsg? && !a.SendOk? && !a.SendFails?
    requires a.AcceptClient? ==> s.fw.sessions < |s.sessions|
    ensures ReachableSys(t) && t.fw == F.Do(s.fw, a) && t.sessions == s.sessions && t.task == s.task && t.h == s.h
  {
    hide ReachableSys, Tokens, F.Do, F.Can;
    t := Step(s, Bridge.Device(a, 0));
  }

  predicate Idle(fw: F.Fw) {
    fw.resetEnabled && fw.rx.RxIdle? && fw.tx.TxIdle? && fw.toUart == [] && fw.received == [] && fw.tcp.Accepting?
  }

  /** The firmware takes the request, carries it out and queues the answer. */
  lemma ServeRequest(s: Sys, id: nat) returns (t: Sys)
    requires ReachableSys(s) && Idle(s.fw) && s.fw.toTcp == [] && s.fw.efd == 0 && s.fw.sessions == 0
    requires s.sessions == [Session(Request, [F.Msg(Frame(3, [1]), id)], [], [])]
    ensures ReachableSys(t) && t.task == s.task && |t.sessions| == 1 && t.fw.sessions == 1
    ensures t.fw.tcp.Selecting? && t.fw.efd == 1 && t.fw.toTcp == [F.Msg(Frame(4, [1]), id)]
    ensures t.fw.received == [F.Msg(Frame(3, [1]), id)]
  {
    hide ReachableSys, Tokens, F.LineAfter, F.DataIn, DoSys, CanSys;
    TheBytes(id);
    var m := F.Msg(Frame(3, [1]), id);
    t := Device1(s, F.AcceptClient);
    t := Device1(t, F.SelectReturns(true));
    t := ReadRequest(t, m);
    t := Device1(t, F.PushToUart);
    t := CarryOut(t, id);
  }

  /** From the queued request to the queued answer. */
  lemma CarryOut(s: Sys, id: nat) returns (t: Sys)
    requires ReachableSys(s) && s.fw.resetEnabled && s.fw.tx.TxIdle? && s.fw.toTcp == [] && s.fw.efd == 0
    requires s.fw.toUart == [F.Msg(Frame(3, [1]), id)]
    ensures ReachableSys(t) && t.task == s.task && t.sessions == s.sessions
    ensures t.fw.tcp == s.fw.tcp && t.fw.sessions == s.fw.sessions && t.fw.received == s.fw.received
    ensures t.fw.efd == 1 && t.fw.toTcp == [F.Msg(Frame(4, [1]), id)]
  {
    hide ReachableSys, Tokens, F.LineAfter, F.DataIn, DoSys, CanSys;
    t := Device1(s, F.TxTake);
    t := Device1(t, F.TxHandle);
    t := Device1(t, F.TxPush);
    t := Device1(t, F.TxNotify);
  }

  lemma ReadRequest(s: Sys, m: Msg) returns (t: Sys)
    requires ReachableSys(s) && s.fw.tcp.Reading? && Serving(s) == 0 && s.sessions == [Session(Request, [m], [], [])]
    requires m.frame == Frame(3, [1])
    ensures ReachableSys(t) && t.fw == F.Do(s.fw, F.ReadMsg(m)) && t.task == s.task && |t.sessions| == 1
  {
    hide ReachableSys, Tokens;
    TheBytes(m.tag);
    t := Step(s, Bridge.Device(F.ReadMsg(m), 0));
  }

  /** The queued answer goes out in the session now served. */
  lemma DeliverAnswer(s: Sys, id: nat) returns (t: Sys)
    requires ReachableSys(s) && s.fw.tcp.Selecting? && s.fw.efd == 1 && s.fw.toTcp == [F.Msg(Frame(4, [1]), id)]
    requires s.fw.sessions == |s.sessions| == 2 && s.sessions[1].down == [] && s.sessions[1].downFlight == []
    ensures ReachableSys(t) && t.task == s.task && t.fw.received == s.fw.received && t.h == s.h
    ensures |t.sessions| == 2 && t.sessions[1].down == Response && t.sessions[1].downFlight == [F.Msg(Frame(4, [1]), id)]
  {
    hide ReachableSys, Tokens, F.LineAfter, F.DataIn, Decode, ReadFrame;
    TheBytes(id);
    t := Device1(s, F.SelectReturns(false));
    t := Device1(t, F.ReadEventfd);
    t := Device1(t, F.Pop);
    t := Step(t, Bridge.Device(F.SendOk, 0));
  }

  /**
    The first request's answer outlives its session: the second asker gets it, although the device
    has never seen the second request.
   */
  lemma StaleAnswerIsReachable() returns (s: Sys)
    ensures ReachableSys(s)
    ensures s.h != [] && s.h[|s.h| - 1] == Answered(2, Answer(Done))
    ensures forall m <- s.fw.received :: m.tag != 2
  {
    hide ReachableSys, Tokens, F.Do, F.Can, Decode, ReadFrame;
    s := InitSys(true, false);
    assert Run(true, false, []) == Some(s);
    ReachableInit();
    s := ConnectAndAsk(s, 1);
    assert s.sessions == [Session(Request, [F.Msg(Frame(3, [1]), 1)], [], [])];
    s := ServeRequest(s, 1);
    s := Lose(s, 1);
    s := DropSession(s);
    s := ConnectAndAsk(s, 2);
    s := AcceptNext(s);
    s := DeliverAnswer(s, 1);
    s := TakeAnswer(s, 1, 2);
  }

  lemma ReachableInit()
    ensures ReachableSys(InitSys(true, false))
  {
    assert Run(true, false, []) == Some(InitSys(true, false));
  }

  lemma DropSession(s: Sys) returns (t: Sys)
    requires ReachableSys(s) && s.fw.tcp.Selecting?
    ensures ReachableSys(t) && t.task == s.task && t.sessions == s.sessions && t.fw == s.fw.(tcp := F.Accepting)
  {
    hide ReachableSys;
    t := Device1(s, F.SelectReturns(true));
    t := Device1(t, F.ReadFails);
  }

  lemma AcceptNext(s: Sys) returns (t: Sys)
    requires ReachableSys(s) && s.fw.tcp.Accepting? && s.fw.sessions < |s.sessions|
    ensures ReachableSys(t) && t.task == s.task && t.sessions == s.sessions && t.h == s.h
    ensures t.fw == s.fw.(tcp := F.Selecting, sessions := s.fw.sessions + 1)
  {
    hide ReachableSys;
    t := Device1(s, F.AcceptClient);
  }

  /** The daemon decodes an answer with one tag while another request waits. */
  lemma TakeAnswer(s: Sys, tag: nat, id: nat) returns (t: Sys)
    requires ReachableSys(s) && Asking(s, id) && s.sessions != [] && tag != id
    requires Newest(s).down == Response && Newest(s).downFlight == [F.Msg(Frame(4, [1]), tag)]
    ensures ReachableSys(t) && t.fw == s.fw && t.h == s.h + [Decoded(ControlRes(Done)), Answered(id, Answer(Done))]
  {
    hide ReachableSys, Decode;
    TheBytes(tag);
    t := Step(s, Daemon(Incoming(ControlRes(Done), Written)));
  }
}
