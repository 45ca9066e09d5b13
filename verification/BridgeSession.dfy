/**
  Whose answer an answer is. What one decoded response does is decided by the control messages on
  the way; a session in which they are the waiting request's alone stays so; and whether a session
  is one of those is decided when the firmware accepts it.
 */
module BridgeSession {
  import opened Bytes
  import opened DeviceCodec
  import FrameReader
  import opened ConnProtocol
  import opened Bridge
  import opened BridgeLinks
  import opened BridgeWire
  import opened BridgeFlow
  import opened BridgeTokens
  import opened BridgeRuns
  import F = Firmware

  /** What the lemmas about the daemon's events need of the invariant. */
  lemma DaemonOfInv(s: Sys)
    requires SysInv(s)
    ensures WireInv(s) && LinkMatchesState(s.task) && forall m <- Retained(s.task.state) :: FromDaemon(m)
  {
    hide WireInv, LinkMatchesState, FromDaemon, Retained, F.Inv, UpInOrder, DownInOrder, UnservedInv, HistoryAgrees, OutboundConserved,
      AnswersBalance, AnswersAreEarned, WritesFollowPayloads, DefensiveBranchesUnused;
  }

  lemma DaemonAlone(s: Sys, e: Event)
    requires CanSys(s, Daemon(e)) && Can(s.task, e)
    ensures DoSys(s, Daemon(e)).task == React(s.task, e).0 && DoSys(s, Daemon(e)).fw == s.fw
  {
    hide CanSys, Can, React, Effects, Project;
  }

  lemma SysStep(s: Sys, act: Act)
    requires SysInv(s) && CanSys(s, act)
    ensures SysInv(DoSys(s, act))
  {
    hide SysInv, CanSys, DoSys;
    match act {
      case Daemon(e) => SysStepDaemon(s, e);
      case Device(a, cut) => SysStepDevice(s, a, cut);
    }
  }

  lemma SessionsOnlyGrowDaemon(s: Sys, e: Event)
    requires WireInv(s) && LinkMatchesState(s.task) && CanSys(s, Daemon(e))
    requires forall m <- Retained(s.task.state) :: FromDaemon(m)
    ensures var t := DoSys(s, Daemon(e));
            |t.sessions| >= |s.sessions| && (InSession(t) && |t.sessions| == |s.sessions| ==> InSession(s))
  {
    hide CanSys, DoSys, LinkMatchesState, LinkEventOf, SessionOk, UpIsWhole, DownIsWhole, Retained, RetainedMsgs, Attempted, MsgOf,
      NewestMoves, FromDaemon;
    MovesWithEvents(s, e);
  }

  /** A step that ends in a session either opened it or began in it. */
  lemma SessionsOnlyGrow(s: Sys, act: Act)
    requires SysInv(s) && CanSys(s, act)
    ensures var t := DoSys(s, act);
            |t.sessions| >= |s.sessions| && (InSession(t) && |t.sessions| == |s.sessions| ==> InSession(s))
  {
    hide CanSys, DoSys, WireInv, F.Inv, UpInOrder, DownInOrder, UnservedInv, HistoryAgrees, OutboundConserved, AnswersBalance,
      AnswersAreEarned, WritesFollowPayloads, DefensiveBranchesUnused, LinkMatchesState, FromDaemon, Retained;
    match act {
      case Daemon(e) => SessionsOnlyGrowDaemon(s, e);
      case Device(a, cut) => SessionsKept(s, a, cut);
    }
  }

  lemma SessionsKept(s: Sys, a: F.Act, cut: nat)
    requires CanSys(s, Device(a, cut))
    ensures var t := DoSys(s, Device(a, cut)); |t.sessions| == |s.sessions| && t.task == s.task
  {
    hide F.Do, Decode, FrameReader.ReadFrame, FrameReader.FrameBytes;
  }

  lemma SettledStep(s: Sys, act: Act)
    requires SysInv(s) && Settled(s) && CanSys(s, act) && SameSession(s, DoSys(s, act))
    ensures Settled(DoSys(s, act))
  {
    hide WireInv, CanSys, DoSys, Settled, SameSession, F.Inv, UpInOrder, DownInOrder, UnservedInv, HistoryAgrees,
      OutboundConserved, AnswersBalance, AnswersAreEarned, WritesFollowPayloads, DefensiveBranchesUnused, LinkMatchesState;
    match act {
      case Daemon(e) => SettledStepDaemon(s, e);
      case Device(a, cut) => SettledStepDevice(s, a, cut);
    }
  }

  lemma {:induction false} InvFrom(s: Sys, acts: seq<Act>)
    requires SysInv(s) && RunFrom(s, acts).Some?
    ensures SysInv(RunFrom(s, acts).value) && |RunFrom(s, acts).value.sessions| >= |s.sessions|
    decreases |acts|
  {
    hide SysInv, CanSys, DoSys;
    if acts != [] {
      var before, act := acts[..|acts| - 1], acts[|acts| - 1];
      InvFrom(s, before);
      SysStep(RunFrom(s, before).value, act);
      SessionsOnlyGrow(RunFrom(s, before).value, act);
    }
  }

  /** A settled session stays settled, whatever daemon, network and device do in it. */
  lemma {:induction false} SettledOverRuns(s: Sys, acts: seq<Act>)
    requires SysInv(s) && Settled(s) && RunFrom(s, acts).Some? && SameSession(s, RunFrom(s, acts).value)
    ensures Settled(RunFrom(s, acts).value)
    decreases |acts|
  {
    hide SysInv, CanSys, DoSys, Settled, InSession;
    if acts != [] {
      var before, act := acts[..|acts| - 1], acts[|acts| - 1];
      var t := RunFrom(s, before).value;
      InvFrom(s, before);
      SessionsOnlyGrow(t, act);
      SettledOverRuns(s, before);
      SettledStep(t, act);
    }
  }

  // ---------------------------------------------------------------- one response

  /** The response the daemon can decode now is the first control message on the way. */
  lemma DecodedIsFirstToken(s: Sys, res: ControlResponse, write: Write)
    requires SysInv(s) && CanSys(s, Daemon(Incoming(ControlRes(res), write)))
    ensures s.sessions != [] && Newest(s).downFlight != [] && s.task.state.Connected?
    ensures Tokens(s) != [] && Tokens(s)[0] == Newest(s).downFlight[0].tag
  {
    hide DoSys, InitSys, UpInOrder, DownInOrder, F.Inv, Decode, DeviceOf, F.Produced, CarriesUp, CarriesDown, Toks,
      FwPipe, UpPipe, Tok, HistoryAgrees, OutboundConserved, AnswersBalance, AnswersAreEarned, WritesFollowPayloads;
    assert SessionOk(Newest(s));
    DownRead(Newest(s).down, Newest(s).downFlight);
    AllProduced(Newest(s).down, Newest(s).downFlight);
    TokOfTaken(Newest(s).downFlight[0]);
    ToksCons(Newest(s).downFlight);
    assert Toks(DownPipe(s))[0] == Newest(s).downFlight[0].tag;
  }

  /**
    In every reachable state: the response decoded next, whose tag says which request it stems from,
    is the first of all control messages on the way. It is given to that request if and only if the
    first of them is the one waiting, and is unsolicited if and only if none waits; otherwise it is
    given to the wrong asker.
   */
  lemma AnswerIsTheAskersIff(s: Sys, res: ControlResponse, write: Write)
    requires ReachableSys(s)
    ensures var e := Incoming(ControlRes(res), write);
            CanSys(s, Daemon(e)) ==>
              && Newest(s).downFlight != [] && Tokens(s) != [] && Tokens(s)[0] == Newest(s).downFlight[0].tag
              && (React(s.task, e).1 == [Decoded(e.m), Answered(Newest(s).downFlight[0].tag, Answer(res))]
                  <==> s.task.waiting == Some(Tokens(s)[0]))
              && (React(s.task, e).1 == [Decoded(e.m), Unsolicited(res)] <==> s.task.waiting == None)
  {
    hide SysInv, ReachableSys, Tokens, Decode;
    ReachableSysInv(s);
    if CanSys(s, Daemon(Incoming(ControlRes(res), write))) {
      DecodedIsFirstToken(s, res, write);
    }
  }

  // ---------------------------------------------------------------- whole sessions

  /** From a settled state on, the control messages on the way are the waiting request's one. */
  lemma OneTokenPerRequest(s: Sys, acts: seq<Act>)
    requires ReachableSys(s) && Settled(s) && RunFrom(s, acts).Some? && SameSession(s, RunFrom(s, acts).value)
    ensures var t := RunFrom(s, acts).value;
            && (Tokens(t) == Due(t.task) || (Tokens(t) == [] && GivenUp(t)))
            && |Tokens(t)| <= |Due(t.task)| <= 1
  {
    hide SysInv, ReachableSys, Tokens, RunFrom;
    ReachableSysInv(s);
    SettledOverRuns(s, acts);
  }

  /** From a settled state on, no response is unsolicited, and each answers its own request. */
  lemma AnswersAreTheAskers(s: Sys, acts: seq<Act>, res: ControlResponse, write: Write)
    requires ReachableSys(s) && Settled(s) && RunFrom(s, acts).Some? && SameSession(s, RunFrom(s, acts).value)
    ensures var t, e := RunFrom(s, acts).value, Incoming(ControlRes(res), write);
            CanSys(t, Daemon(e)) ==>
              && Newest(t).downFlight != []
              && React(t.task, e).1 == [Decoded(e.m), Answered(Newest(t).downFlight[0].tag, Answer(res))]
  {
    hide SysInv, ReachableSys, Tokens, RunFrom, Decode;
    ReachableSysInv(s);
    SettledOverRuns(s, acts);
    InvFrom(s, acts);
    var t := RunFrom(s, acts).value;
    if CanSys(t, Daemon(Incoming(ControlRes(res), write))) {
      DecodedIsFirstToken(t, res, write);
    }
  }

  // ---------------------------------------------------------------- when a session is settled

  /** The firmware accepts the session the daemon is in. */
  predicate AcceptsNewest(s: Sys) {
    InSession(s) && s.fw.tcp.Accepting? && s.fw.sessions + 1 == |s.sessions|
  }

  /** Just accepted, a session is settled if and only if the firmware holds no control message. */
  lemma AcceptSettlesIff(s: Sys)
    requires ReachableSys(s) && AcceptsNewest(s)
    ensures CanSys(s, Device(F.AcceptClient, 0))
    ensures var t := DoSys(s, Device(F.AcceptClient, 0));
            && Tokens(t) == Toks(FwPipe(s.fw)) + Due(t.task) && SameSession(s, t)
            && (Settled(t) <==> Toks(FwPipe(s.fw)) == [])
  {
    hide WireInv, F.Inv, UpInOrder, DownInOrder, HistoryAgrees, ReachableSys, Toks, ConnProtocol.Inv, F.LineAfter, F.ReplyTo, F.DataIn;
    ReachableSysInv(s);
    var t := DoSys(s, Device(F.AcceptClient, 0));
    var last := |s.sessions| - 1;
    assert t.sessions[last..] == [Newest(s)];
    FlightsOne(Newest(s));
    var fw := Toks(FwPipe(s.fw));
    assert Toks([]) == [] by { ToksOne(F.Msg(FrameReader.Frame(0, []), 0)); }
    assert FwPipe(t.fw) == FwPipe(s.fw);
    assert [] + fw + Due(t.task) == fw + Due(t.task);
    if Tokens(t) == Due(t.task) {
      assert |fw| == 0;
    }
  }
}
