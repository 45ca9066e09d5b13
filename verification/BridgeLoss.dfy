/**
  Where messages can be lost. The selections of BridgeFlow say that nothing is reordered, repeated
  or made up; the accounts below say that nothing disappears but where a side drops the link.
 */
module BridgeLoss {
  import opened Bytes
  import opened DeviceCodec
  import opened FrameReader
  import opened Subsequences
  import opened ConnProtocol
  import opened Bridge
  import opened BridgeLinks
  import opened BridgeWire
  import opened BridgeFlow
  import opened BridgeTokens
  import opened BridgeRuns
  import F = Firmware

  /** A control request whose send fails is refused, not retained. */
  predicate TearsRequest(le: LinkEvent) { le.Tears? && le.first && le.m.ControlReq? }

  /**
    Messages a step loses on the way to the UART: what the firmware leaves unread when it gives a
    session up, what the daemon sends on a session given up already, a control request whose send
    fails, and what is retained when the task shuts down.
   */
  function UpLost(s: Sys, act: Act): nat
    requires CanSys(s, act)
  {
    match act
    case Device(a, _) =>
      if GivesUp(a) && Serving(s) < |s.sessions| then |s.sessions[Serving(s)].upFlight| else 0
    case Daemon(e) =>
      var le := LinkEventOf(s.task, e);
      if le.Sends? then (if Serving(s) < |s.sessions| then 0 else 1)
      else if TearsRequest(le) then 1
      else if React(s.task, e).0.state.ShuttingDown? then |RetainedMsgs(s.task)|
      else 0
  }

  /**
    Frames a step loses on the way to the terminal: one whose send fails, one sent on a session
    the daemon has left, and what the daemon leaves undecoded when it drops a session.
   */
  function DownLost(s: Sys, act: Act): nat
    requires CanSys(s, act)
  {
    match act
    case Device(a, _) =>
      if a.SendFails? || (a.SendOk? && !(s.task.linked && Serving(s) == |s.sessions| - 1)) then 1 else 0
    case Daemon(e) =>
      if s.task.linked && !React(s.task, e).0.linked then |DownPipe(s)| else 0
  }

  datatype Loss = Loss(up: nat, down: nat)

  /** The losses of a whole run. */
  function Losses(r: bool, f: bool, acts: seq<Act>): Loss
    decreases |acts|
  {
    if acts == [] then Loss(0, 0)
    else
      var before, act := acts[..|acts| - 1], acts[|acts| - 1];
      var l := Losses(r, f, before);
      match Run(r, f, before)
      case None => l
      case Some(s) => if CanSys(s, act) then Loss(l.up + UpLost(s, act), l.down + DownLost(s, act)) else l
  }

  /** Some run reaches the state with these losses. */
  ghost predicate ReachedLosing(s: Sys, l: Loss) {
    exists r, f, acts :: Run(r, f, acts) == Some(s) && Losses(r, f, acts) == l
  }

  predicate Accounted(s: Sys, l: Loss) {
    && |s.attempts| == |s.fw.received| + |UpPipe(s)| + |RetainedMsgs(s.task)| + l.up
    && |s.fw.pushed| == |s.got| + |DownPipe(s)| + |F.SendHand(s.fw)| + |s.fw.toTcp| + l.down
  }

  /** A message read or retained is sent, retained, or lost for one of the reasons above. */
  lemma RetentionOfEvents(t: Task, e: Event)
    requires Can(t, e) && LinkMatchesState(t)
    ensures var u, le := React(t, e).0, LinkEventOf(t, e);
            |RetainedMsgs(t)| + |Attempted(le)| == |RetainedMsgs(u)| +
              if le.Sends? || TearsRequest(le) then 1
              else if u.state.ShuttingDown? then |RetainedMsgs(t)| else 0
  {
    hide Encode, FromBytes, NextBackoff, MsgOf;
  }

  ghost predicate DaemonIsSound(s: Sys) {
    WireInv(s) && LinkMatchesState(s.task) && forall m <- Retained(s.task.state) :: FromDaemon(m)
  }

  lemma UpAccountDaemon(s: Sys, e: Event)
    requires DaemonIsSound(s) && CanSys(s, Daemon(e)) && Can(s.task, e)
    ensures var t := DoSys(s, Daemon(e));
            |t.attempts| - |s.attempts| == |t.fw.received| + |UpPipe(t)| + |RetainedMsgs(t.task)| + UpLost(s, Daemon(e))
                                           - |s.fw.received| - |UpPipe(s)| - |RetainedMsgs(s.task)|
  {
    hide CanSys, LinkMatchesState, LinkEventOf, UpPipe, SessionOk, UpIsWhole, DownIsWhole, RetainedMsgs, Attempted, MsgOf,
      DeviceOf, F.Produced, Encode, React, StateChange, TearsRequest, NewestMoves, FromDaemon, Retained;
    var t, le := DoSys(s, Daemon(e)), LinkEventOf(s.task, e);
    MovesWithEvents(s, e);
    UpPipeMoves(s, t, le);
    RetentionOfEvents(s.task, e);
    assert t.task == React(s.task, e).0;
  }

  lemma DownAccountDaemon(s: Sys, e: Event)
    requires DaemonIsSound(s) && CanSys(s, Daemon(e)) && Can(s.task, e)
    ensures var t := DoSys(s, Daemon(e));
            |s.got| + |DownPipe(s)| == |t.got| + |DownPipe(t)| + DownLost(s, Daemon(e))
    ensures DoSys(s, Daemon(e)).fw == s.fw
  {
    hide CanSys, LinkEventOf, UpPipe, SessionOk, UpIsWhole, DownIsWhole, RetainedMsgs, Attempted, MsgOf,
      DeviceOf, F.Produced, Encode, React, FromDaemon, Retained;
    var t, le := DoSys(s, Daemon(e)), LinkEventOf(s.task, e);
    MovesWithEvents(s, e);
    assert t.task == React(s.task, e).0;
  }

  lemma UpAccountDevice(s: Sys, a: F.Act, cut: nat)
    requires WireInv(s) && CanSys(s, Device(a, cut))
    ensures var t := DoSys(s, Device(a, cut));
            |s.fw.received| + |UpPipe(s)| == |t.fw.received| + |UpPipe(t)| + UpLost(s, Device(a, cut))
  {
    hide F.LineAfter, F.ReplyTo, F.DataIn, WireInv, UpPipe;
    if a.ReadMsg? {
      PipeAfterReading(s, a.m, cut);
    } else if GivesUp(a) {
      PipeAfterGivingUp(s, a, cut);
    } else {
      PipeOtherwise(s, a, cut);
    }
  }

  lemma DownAccountDevice(s: Sys, a: F.Act, cut: nat)
    requires WireInv(s) && CanSys(s, Device(a, cut))
    ensures var t := DoSys(s, Device(a, cut));
            |t.fw.pushed| - |s.fw.pushed| == |DownPipe(t)| + |F.SendHand(t.fw)| + |t.fw.toTcp| + DownLost(s, Device(a, cut))
                                             - |DownPipe(s)| - |F.SendHand(s.fw)| - |s.fw.toTcp|
  {
    hide F.LineAfter, F.ReplyTo, F.DataIn, FrameBytes, ReadFrame, SessionOk, UpIsWhole, DownIsWhole, Tokens;
    match a {
      case Pop =>
      case SendOk =>
      case SendFails =>
      case RxPush =>
      case TxPush =>
      case _ => DownUnchanged(s, a, cut);
    }
  }

  lemma {:induction false} AccountedOverRuns(r: bool, f: bool, acts: seq<Act>)
    requires Run(r, f, acts).Some?
    ensures Accounted(Run(r, f, acts).value, Losses(r, f, acts))
    decreases |acts|
  {
    hide CanSys, DoSys, UpLost, DownLost, UpPipe, DownPipe, F.SendHand, RetainedMsgs, WireInv, ConnProtocol.Inv, F.Inv,
      UpInOrder, DownInOrder, UnservedInv;
    if acts == [] {
      InitIsAccounted(r, f);
    } else {
      var before, act := acts[..|acts| - 1], acts[|acts| - 1];
      var s := Run(r, f, before).value;
      AccountedOverRuns(r, f, before);
      SysInvOverRuns(r, f, before);
      AccountStep(s, act, Losses(r, f, before));
    }
  }

  lemma InitIsAccounted(r: bool, f: bool)
    ensures Accounted(InitSys(r, f), Loss(0, 0))
  {
  }

  lemma AccountStep(s: Sys, act: Act, l: Loss)
    requires SysInv(s) && CanSys(s, act) && Accounted(s, l)
    ensures Accounted(DoSys(s, act), Loss(l.up + UpLost(s, act), l.down + DownLost(s, act)))
  {
    hide DoSys, UpLost, DownLost, UpPipe, DownPipe, F.SendHand, RetainedMsgs, WireInv, LinkMatchesState, F.Inv,
      UpInOrder, DownInOrder, UnservedInv, Retained, FromDaemon, Decode, HistoryAgrees;
    match act {
      case Daemon(e) =>
        UpAccountDaemon(s, e);
        DownAccountDaemon(s, e);
      case Device(a, cut) =>
        UpAccountDevice(s, a, cut);
        DownAccountDevice(s, a, cut);
        DeviceKeeps(s, a, cut);
    }
  }

  lemma DeviceKeeps(s: Sys, a: F.Act, cut: nat)
    requires CanSys(s, Device(a, cut))
    ensures var t := DoSys(s, Device(a, cut)); t.task == s.task && t.attempts == s.attempts && t.got == s.got
  {
    hide F.Do;
  }

  /**
    Every message is accounted for: tried = read by the firmware + on the way + retained + lost,
    and pushed = decoded + on the way + queued + lost, where only the steps `UpLost` and `DownLost`
    name lose any. A run without such a step loses nothing: then the selections are everything.
   */
  lemma EveryLossHasItsStep(s: Sys, l: Loss)
    requires ReachedLosing(s, l)
    ensures |s.attempts| == |s.fw.received| + |UpPipe(s)| + |RetainedMsgs(s.task)| + l.up
    ensures |s.fw.pushed| == |s.got| + |DownPipe(s)| + |F.SendHand(s.fw)| + |s.fw.toTcp| + l.down
    ensures l.up == 0 ==> s.fw.received + UpPipe(s) + RetainedMsgs(s.task) == s.attempts
    ensures l.down == 0 ==> s.got + DownPipe(s) + F.SendHand(s.fw) + s.fw.toTcp == s.fw.pushed
  {
    hide CanSys, DoSys, UpPipe, DownPipe, F.SendHand, RetainedMsgs, WireInv, ConnProtocol.Inv, F.Inv, UnservedInv, Sub, Losses, Run;
    var r, f, acts :| Run(r, f, acts) == Some(s) && Losses(r, f, acts) == l;
    AccountedOverRuns(r, f, acts);
    SysInvOverRuns(r, f, acts);
    if l.up == 0 {
      SubOfSameLength(s.fw.received + UpPipe(s) + RetainedMsgs(s.task), s.attempts);
    }
    if l.down == 0 {
      SubOfSameLength(s.got + DownPipe(s) + F.SendHand(s.fw) + s.fw.toTcp, s.fw.pushed);
    }
  }
}
