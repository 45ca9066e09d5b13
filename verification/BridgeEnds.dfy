/**
  The bridge from the outside: what goes in at one end of a run against what comes out at the
  other. Nothing here is told in the terms of the model but the run itself.
 */
module BridgeEnds {
  import opened Bytes
  import opened DeviceCodec
  import opened FrameReader
  import opened Subsequences
  import opened Termios
  import opened UartLine
  import opened ConnProtocol
  import opened ConnEvents
  import opened FirmwareEffects
  import opened Bridge
  import opened BridgeLinks
  import opened BridgeWire
  import opened BridgeFlow
  import opened BridgeTokens
  import opened BridgeRuns
  import opened BridgeLoss
  import opened BridgeSession
  import opened BridgeLine
  import F = Firmware

  /** The bytes read from the terminal over a run. */
  function TypedIn(acts: seq<Act>): seq<byte>
    decreases |acts|
  {
    if acts == [] then []
    else
      TypedIn(acts[..|acts| - 1]) +
        match acts[|acts| - 1]
        case Daemon(PtyData(bytes, _)) => bytes
        case _ => []
  }

  /** The bytes the UART has delivered over a run. */
  function HeardIn(acts: seq<Act>): seq<byte>
    decreases |acts|
  {
    if acts == [] then []
    else
      HeardIn(acts[..|acts| - 1]) +
        match acts[|acts| - 1]
        case Device(UartChunk(bytes), _) => bytes
        case _ => []
  }

  function TypedView(a: Action): seq<byte> {
    if a.ReadFromPty? && a.m.Data? then a.m.body[..a.m.size] else []
  }

  // ---------------------------------------------------------------- what goes in

  lemma TypedOfEvent(t: Task, e: Event)
    requires Can(t, e)
    ensures Project(React(t, e).1, TypedView) == if e.PtyData? then e.bytes else []
  {
    hide React, Can, Project;
    ReadsByEvent(t, e);
    var did := React(t, e).1;
    if e.PtyData? || e.PtyChange? {
      assert did == [did[0]] + did[1..];
      ProjectAppend([did[0]], did[1..], TypedView);
      ProjectOne(did[0], TypedView);
      ProjectQuiet(did[1..], TypedView);
      assert TypedView(did[0]) + [] == TypedView(did[0]);
    } else {
      ProjectQuiet(did, TypedView);
    }
  }

  lemma DaemonNotes(s: Sys, e: Event)
    requires CanSys(s, Daemon(e)) && Can(s.task, e)
    ensures DoSys(s, Daemon(e)).h == s.h + React(s.task, e).1 && DoSys(s, Daemon(e)).fw == s.fw
  {
    hide CanSys, Can, React, Effects, Project;
  }

  lemma DeviceHears(s: Sys, a: F.Act, cut: nat)
    requires CanSys(s, Device(a, cut))
    ensures var t := DoSys(s, Device(a, cut));
            && t.h == s.h && t.fw.resetEnabled == s.fw.resetEnabled
            && t.fw.uartIn == s.fw.uartIn + if a.UartChunk? then a.bytes else []
  {
    hide F.LineAfter, F.DataIn, F.ReplyTo, FrameBytes, ReadFrame, Decode;
  }

  lemma {:induction false} EndsOverRuns(r: bool, f: bool, acts: seq<Act>)
    requires Run(r, f, acts).Some?
    ensures var s := Run(r, f, acts).value; Project(s.h, TypedView) == TypedIn(acts) && s.fw.uartIn == HeardIn(acts)
    decreases |acts|
  {
    hide Project, React, DoSys, CanSys, Can;
    if acts == [] {
      ProjectNone(TypedView);
    } else {
      var s, act := Run(r, f, acts[..|acts| - 1]).value, acts[|acts| - 1];
      EndsOverRuns(r, f, acts[..|acts| - 1]);
      match act {
        case Daemon(e) =>
          assert Can(s.task, e) by { CanOfSys(s, e); }
          DaemonNotes(s, e);
          TypedOfEvent(s.task, e);
          ProjectAppend(s.h, React(s.task, e).1, TypedView);
        case Device(a, cut) => DeviceHears(s, a, cut);
      }
    }
  }

  lemma CanOfSys(s: Sys, e: Event)
    requires CanSys(s, Daemon(e))
    ensures Can(s.task, e)
  {
    hide Can, Decode;
  }

  // ---------------------------------------------------------------- what comes out

  lemma {:induction false} DataOfAppend(a: seq<Msg>, b: seq<Msg>)
    ensures F.DataOf(a + b) == F.DataOf(a) + F.DataOf(b)
    decreases |b|
  {
    if b == [] {
      assert a + b == a;
    } else {
      var init, last := b[..|b| - 1], b[|b| - 1];
      DataOfAppend(a, init);
      assert a + b == (a + init) + [last];
      F.DataOfSnoc(a + init, last);
      Associates(F.DataOf(a), F.DataOf(init), F.DataIn(last));
    }
  }

  lemma AttemptCarries(a: Action)
    ensures F.DataOf(AttemptView(a)) == TypedView(a)
  {
    hide Encode;
    F.DataOfOne(F.Msg(Frame(0, []), 0));
    if AttemptView(a) != [] {
      F.DataOfOne(AttemptView(a)[0]);
    }
  }

  /** The messages tried carry the bytes read, no more and no fewer. */
  lemma {:induction false} AttemptsCarry(h: seq<Action>)
    ensures F.DataOf(Project(h, AttemptView)) == Project(h, TypedView)
  {
    hide AttemptView, TypedView, F.DataOf;
    if h == [] {
      F.DataOfOne(F.Msg(Frame(0, []), 0));
    } else {
      AttemptsCarry(h[1..]);
      AttemptCarries(h[0]);
      DataOfAppend(AttemptView(h[0]), Project(h[1..], AttemptView));
    }
  }

  /**
    From the terminal to the UART: in a run that loses nothing on the way up, what the UART has been
    written is a beginning of what was read from the terminal, and all of it once nothing is under way.
   */
  lemma UartGetsWhatIsTyped(r: bool, f: bool, acts: seq<Act>)
    requires Run(r, f, acts).Some? && Losses(r, f, acts).up == 0
    ensures var s := Run(r, f, acts).value;
            && s.fw.uartOut <= TypedIn(acts)
            && (UpIsQuiet(s) ==> s.fw.uartOut == TypedIn(acts))
  {
    hide Run, Losses, Project, UpPipe, RetainedMsgs, F.DataOf, TypedIn, HeardIn, Unhandled, SysInv;
    var s := Run(r, f, acts).value;
    assert ReachedLosing(s, Losses(r, f, acts)) && ReachableSys(s);
    EveryLossHasItsStep(s, Losses(r, f, acts));
    EndsOverRuns(r, f, acts);
    SysInvOverRuns(r, f, acts);
    HandledOfAttempts(s);
    AttemptsCarry(s.h);
  }

  lemma HandledOfAttempts(s: Sys)
    requires SysInv(s) && s.fw.received + UpPipe(s) + RetainedMsgs(s.task) == s.attempts
    ensures s.fw.uartOut <= F.DataOf(s.attempts) && (UpIsQuiet(s) ==> s.fw.uartOut == F.DataOf(s.attempts))
    ensures s.attempts == Project(s.h, AttemptView)
  {
    hide Project, UpPipe, RetainedMsgs, F.DataOf, WireInv, UpInOrder, DownInOrder, UnservedInv, ConnProtocol.Inv, F.NotificationInv,
      F.RepliesNeedControl, F.OutboundConserved, F.LossBounded, F.UartInOrder, F.RepliesInOrder, F.AllProduced, F.LineOf;
    var rest := Unhandled(s.fw) + UpPipe(s) + RetainedMsgs(s.task);
    assert s.fw.received == s.fw.handled + Unhandled(s.fw);
    assert s.attempts == s.fw.handled + rest;
    DataOfAppend(s.fw.handled, rest);
    if UpIsQuiet(s) {
      assert rest == [];
      assert s.fw.handled + [] == s.fw.handled;
    }
  }

  /** Nothing is under way to the terminal. */
  predicate DownIsQuiet(s: Sys) {
    DownPipe(s) == [] && F.SendHand(s.fw) == [] && s.fw.toTcp == [] && F.RxHand(s.fw) == [] && !s.task.state.ShuttingDown?
  }

  /**
    From the UART to the terminal: in a run that loses nothing on the way down, what the terminal has
    been written is a beginning of what the UART delivered, and all of it once nothing is under way.
   */
  lemma TerminalGetsWhatIsHeard(r: bool, f: bool, acts: seq<Act>)
    requires Run(r, f, acts).Some? && Losses(r, f, acts).down == 0
    ensures var s := Run(r, f, acts).value;
            && Project(s.h, WrittenView) <= HeardIn(acts)
            && (DownIsQuiet(s) ==> Project(s.h, WrittenView) == HeardIn(acts))
  {
    hide Run, Losses, Project, DownPipe, F.DataOf, TypedIn, HeardIn, F.SendHand, F.RxHand;
    var s := Run(r, f, acts).value;
    assert ReachedLosing(s, Losses(r, f, acts)) && ReachableSys(s);
    EveryLossHasItsStep(s, Losses(r, f, acts));
    EndsOverRuns(r, f, acts);
    UartToTerminal(s);
    var rest := DownPipe(s) + F.SendHand(s.fw) + s.fw.toTcp;
    assert s.fw.pushed == s.got + rest;
    DataOfAppend(s.got, rest);
    if DownIsQuiet(s) {
      assert rest == [];
      assert s.got + [] == s.got;
      F.DataOfOne(F.Msg(Frame(0, []), 0));
      assert F.DataOf(s.fw.pushed) + [] == F.DataOf(s.fw.pushed);
    }
  }

  // ---------------------------------------------------------------- settings

  /** The last change reported by the terminal over a run. */
  function LastReport(acts: seq<Act>): Option<Change>
    decreases |acts|
  {
    if acts == [] then None
    else
      match acts[|acts| - 1]
      case Daemon(PtyChange(c, _)) => Some(c)
      case _ => LastReport(acts[..|acts| - 1])
  }

  /** The line has the settings of a change, or those of start-up: 115200 bit/s, 8 data bits, no parity, 1 stop bit. */
  predicate LineShows(line: Line, allowFlow: bool, report: Option<Change>) {
    match report
    case None => line == Line(115200, Bits8, One, Disabled, false)
    case Some(c) =>
      && line.baudrate == c.baudrate && SettingsOf(line) == (c.dataBits as int, c.stopBits as int, c.parity as int)
      && (line.flow <==> allowFlow && c.hwFlowCtl)
  }

  lemma NewAttempt(t: Task, e: Event)
    requires Can(t, e) && LinkMatchesState(t)
    ensures var a := Attempted(LinkEventOf(t, e));
            if e.PtyChange? then a == [MsgOf(ConfigOf(e.change), 0)] else |a| <= 1 && forall m <- a :: !IsConfig(m)
    ensures e.PtyChange? ==> Legal(e.change)
  {
    hide Encode, NextBackoff;
  }

  lemma LastConfigSnoc(ms: seq<Msg>, m: Msg)
    ensures LastConfig(ms + [m]) == if IsConfig(m) then Some(m) else LastConfig(ms)
  {
    assert (ms + [m])[..|ms|] == ms;
  }

  lemma {:induction false} LastConfigIsLastReport(r: bool, f: bool, acts: seq<Act>)
    requires Run(r, f, acts).Some?
    ensures var s, c := Run(r, f, acts).value, LastReport(acts);
            && LastConfig(s.attempts) == (if c.Some? then Some(MsgOf(ConfigOf(c.value), 0)) else None)
            && (c.Some? ==> Legal(c.value)) && s.fw.allowFlow == f
    decreases |acts|
  {
    hide Project, React, DoSys, CanSys, Can, LastConfig, LinkEventOf, ConfigOf, MsgOf, Legal, SysInv;
    if acts == [] {
      assert LastConfig([]) == None by { NothingTried(); }
    } else {
      var before, act := acts[..|acts| - 1], acts[|acts| - 1];
      var s := Run(r, f, before).value;
      LastConfigIsLastReport(r, f, before);
      SysInvOverRuns(r, f, before);
      match act {
        case Daemon(e) => ReportStep(s, e);
        case Device(a, cut) => DeviceTriesNothing(s, a, cut);
      }
    }
  }

  lemma NothingTried()
    ensures LastConfig([]) == None
  {
  }

  lemma ReportStep(s: Sys, e: Event)
    requires SysInv(s) && CanSys(s, Daemon(e))
    ensures var t := DoSys(s, Daemon(e));
            && t.fw == s.fw && (e.PtyChange? ==> Legal(e.change))
            && LastConfig(t.attempts) == if e.PtyChange? then Some(MsgOf(ConfigOf(e.change), 0)) else LastConfig(s.attempts)
  {
    hide Project, React, DoSys, CanSys, Can, LastConfig, LinkEventOf, ConfigOf, MsgOf, Legal, SysInv, IsConfig, WireInv, LinkMatchesState,
      FromDaemon, Retained, StateChange, NewestMoves, Attempted;
    CanOfSys(s, e);
    DaemonOfInv(s);
    DaemonNotes(s, e);
    MovesWithEvents(s, e);
    NewAttempt(s.task, e);
    var a := Attempted(LinkEventOf(s.task, e));
    if |a| == 1 {
      assert a == [a[0]];
      LastConfigSnoc(s.attempts, a[0]);
      assert IsConfig(MsgOf(ConfigOf(Slow), 0)) && (e.PtyChange? ==> IsConfig(a[0])) by { ConfigsAreConfigs(s, e); }
      assert !e.PtyChange? ==> a[0] in a;
    } else {
      assert a == [] && s.attempts + a == s.attempts;
    }
  }

  lemma ConfigsAreConfigs(s: Sys, e: Event)
    ensures IsConfig(MsgOf(ConfigOf(Slow), 0)) && (e.PtyChange? ==> IsConfig(MsgOf(ConfigOf(e.change), 0)))
  {
  }

  lemma DeviceTriesNothing(s: Sys, a: F.Act, cut: nat)
    requires CanSys(s, Device(a, cut))
    ensures var t := DoSys(s, Device(a, cut)); t.attempts == s.attempts && t.fw.allowFlow == s.fw.allowFlow
  {
    hide F.LineAfter, F.DataIn, F.ReplyTo, FrameBytes, ReadFrame, Decode;
  }

  lemma ReportIsShown(f: bool, c: Change)
    requires Legal(c)
    ensures LineShows(LineFor(f, Some(MsgOf(ConfigOf(c), 0))), f, Some(c))
  {
    ConfigFieldsAgree(ConfigOf(c));
    AppliedIffInRange(F.BootLine, ConfigFieldsOf(FrameOf(ConfigOf(c)).body), f);
  }

  /**
    From the terminal's settings to the UART's: in a run that loses nothing on the way up, once
    nothing is under way, the UART has the settings of the last change reported over the whole run,
    or those of start-up if there was none.
   */
  lemma UartShowsLastReport(r: bool, f: bool, acts: seq<Act>)
    requires Run(r, f, acts).Some? && Losses(r, f, acts).up == 0 && UpIsQuiet(Run(r, f, acts).value)
    ensures LineShows(Run(r, f, acts).value.fw.line, f, LastReport(acts))
  {
    hide Run, Losses, UpPipe, LineFor, LastConfig, LastReport, LineShows, Legal, MsgOf, ConfigOf;
    var s := Run(r, f, acts).value;
    assert ReachedLosing(s, Losses(r, f, acts));
    QuietLineIsCurrent(s, Losses(r, f, acts));
    LastConfigIsLastReport(r, f, acts);
    if LastReport(acts).Some? {
      ReportIsShown(f, LastReport(acts).value);
    } else {
      StartUpIsShown(f);
    }
  }

  lemma StartUpIsShown(f: bool)
    ensures LineShows(LineFor(f, None), f, None)
  {
  }

  // ---------------------------------------------------------------- what answers say

  /** Every answer a device gave tells whether it can reset. */
  ghost predicate AnswersTell(s: Sys) {
    forall a <- s.h :: a.Answered? && a.reply.Answer? ==> (a.reply.res == Done <==> s.fw.resetEnabled)
  }

  lemma ResponseTells(s: Sys, res: ControlResponse, write: Write)
    requires SysInv(s) && CanSys(s, Daemon(Incoming(ControlRes(res), write)))
    ensures res == Done <==> s.fw.resetEnabled
  {
    hide DoSys, UpInOrder, UnservedInv, HistoryAgrees, ConnProtocol.Inv, F.NotificationInv, F.RepliesNeedControl, Decode, CarriesUp,
      CarriesDown, F.OutboundConserved, F.LossBounded, F.UartInOrder, F.RepliesInOrder, F.AllProduced, F.EffectsOfHandled, Sub;
    assert s.sessions != [] && s.task.linked;
    assert SessionOk(Newest(s));
    DownRead(Newest(s).down, Newest(s).downFlight);
    AllProduced(Newest(s).down, Newest(s).downFlight);
    var m := Newest(s).downFlight[0];
    FlightIsPushed(s, m);
    F.HandledFirst(s.fw);
    assert forall c <- s.fw.handled :: c in s.fw.received;
    SuccessNeedsReset(s.fw, m);
  }

  lemma FlightIsPushed(s: Sys, m: Msg)
    requires DownInOrder(s) && m in DownPipe(s)
    ensures m in s.fw.pushed
  {
    hide DownPipe;
    var all := s.got + DownPipe(s) + F.SendHand(s.fw) + s.fw.toTcp;
    var f :| Places(f, all, s.fw.pushed);
    var i :| 0 <= i < |DownPipe(s)| && DownPipe(s)[i] == m;
    assert all[|s.got| + i] == m;
  }

  lemma AnswersTellStep(s: Sys, act: Act)
    requires SysInv(s) && AnswersTell(s) && CanSys(s, act)
    ensures AnswersTell(DoSys(s, act))
  {
    hide SysInv, CanSys, DoSys, React, Can;
    match act {
      case Daemon(e) =>
        CanOfSys(s, e);
        DaemonNotes(s, e);
        forall a | a in React(s.task, e).1 && a.Answered? && a.reply.Answer?
          ensures a.reply.res == Done <==> s.fw.resetEnabled
        {
          RepliesByEvent(s.task, e, a.id, a.reply);
          ResponseTells(s, a.reply.res, e.write);
        }
      case Device(a, cut) => DeviceHears(s, a, cut);
    }
  }

  lemma {:induction false} AnswersTellOverRuns(r: bool, f: bool, acts: seq<Act>)
    requires Run(r, f, acts).Some?
    ensures AnswersTell(Run(r, f, acts).value)
    decreases |acts|
  {
    hide SysInv, CanSys, DoSys;
    if acts != [] {
      AnswersTellOverRuns(r, f, acts[..|acts| - 1]);
      SysInvOverRuns(r, f, acts[..|acts| - 1]);
      AnswersTellStep(Run(r, f, acts[..|acts| - 1]).value, acts[|acts| - 1]);
    }
  }

  /** A user is told that the reset was done only by a device built to do it, and that it is not supported only by one that is not. */
  lemma AnswersTellReset(s: Sys, id: nat, res: ControlResponse)
    requires ReachableSys(s) && Answered(id, Answer(res)) in s.h
    ensures res == Done <==> s.fw.resetEnabled
  {
    hide Run;
    var r, f, acts :| Run(r, f, acts) == Some(s);
    AnswersTellOverRuns(r, f, acts);
  }
}
