/**
  Control requests and responses as tokens. In a settled session the tokens on the way are the
  waiting request's one, so every answer answers its asker; every step within the session keeps it
  settled, and whether it is settled is decided when the firmware accepts it.
 */
module BridgeTokens {
  import opened Bytes
  import opened DeviceCodec
  import opened FrameReader
  import opened ConnProtocol
  import opened Bridge
  import opened BridgeLinks
  import opened BridgeWire
  import opened BridgeFlow
  import F = Firmware

  lemma {:induction false} ToksAppend(a: seq<Msg>, b: seq<Msg>)
    ensures Toks(a + b) == Toks(a) + Toks(b)
  {
    hide IsToken;
    if a == [] {
      assert a + b == b;
    } else {
      ToksAppend(a[1..], b);
      assert (a + b)[1..] == a[1..] + b;
      Associates(if IsToken(a[0]) then [a[0].tag] else [], Toks(a[1..]), Toks(b));
    }
  }

  function Tok(m: Msg): seq<nat> { if IsToken(m) then [m.tag] else [] }

  lemma ToksOne(m: Msg)
    ensures Toks([m]) == Tok(m) && Toks([]) == []
  {
    assert [m][1..] == [];
  }

  lemma ToksSnoc(a: seq<Msg>, m: Msg)
    ensures Toks(a + [m]) == Toks(a) + Tok(m)
  {
    ToksAppend(a, [m]);
    ToksOne(m);
  }

  lemma ToksCons(a: seq<Msg>)
    requires a != []
    ensures Toks(a) == Tok(a[0]) + Toks(a[1..])
  {
  }

  lemma FwToks(fw: F.Fw)
    ensures Toks(FwPipe(fw)) ==
            Toks(F.SendHand(fw)) + Toks(fw.toTcp) + Toks(F.ReplyHand(fw)) + Toks(F.TxHand(fw)) + Toks(fw.toUart) + Toks(F.TcpHand(fw))
  {
    hide Toks;
    ToksAppend(F.SendHand(fw) + fw.toTcp + F.ReplyHand(fw) + F.TxHand(fw) + fw.toUart, F.TcpHand(fw));
    ToksAppend(F.SendHand(fw) + fw.toTcp + F.ReplyHand(fw) + F.TxHand(fw), fw.toUart);
    ToksAppend(F.SendHand(fw) + fw.toTcp + F.ReplyHand(fw), F.TxHand(fw));
    ToksAppend(F.SendHand(fw) + fw.toTcp, F.ReplyHand(fw));
    ToksAppend(F.SendHand(fw), fw.toTcp);
  }

  /** Everything the firmware has read came from a daemon. */
  predicate ReadFromDaemon(fw: F.Fw) {
    forall m <- fw.received :: SentByDaemon(m)
  }

  /** Pushing a frame the firmware holds, or handing one on, keeps the order of the pipe. */
  lemma PipeMoves(fw: F.Fw, a: F.Act)
    requires F.Can(fw, a)
    requires a.PushToUart? || a.Pop? || a.TxTake? || a.TxPush?
    ensures FwPipe(F.Do(fw, a)) == FwPipe(fw)
  {
    hide F.LineAfter, F.ReplyTo, F.DataIn;
    var gw := F.Do(fw, a);
    match a {
      case PushToUart =>
        var x := F.SendHand(fw) + fw.toTcp + F.ReplyHand(fw) + F.TxHand(fw);
        Associates(x, fw.toUart, [fw.tcp.m]);
        assert x + gw.toUart + [] == x + gw.toUart;
      case Pop =>
        assert fw.toTcp == [fw.toTcp[0]] + fw.toTcp[1..];
        assert F.SendHand(fw) + fw.toTcp == F.SendHand(gw) + gw.toTcp;
      case TxTake =>
        var x := F.SendHand(fw) + fw.toTcp + F.ReplyHand(fw);
        assert fw.toUart == [fw.toUart[0]] + fw.toUart[1..];
        Associates(x, [fw.toUart[0]], fw.toUart[1..]);
        assert x + [] == x;
        assert x + F.TxHand(fw) + fw.toUart == x + F.TxHand(gw) + gw.toUart;
      case TxPush =>
        Associates(F.SendHand(fw), fw.toTcp, [fw.tx.m]);
        assert F.SendHand(fw) + gw.toTcp + [] == F.SendHand(fw) + gw.toTcp;
        assert F.SendHand(fw) + fw.toTcp + F.ReplyHand(fw) == F.SendHand(gw) + gw.toTcp + F.ReplyHand(gw);
    }
  }

  /** UART data joins the pipe without a token. */
  lemma DataIsNoToken(fw: F.Fw)
    requires F.Can(fw, F.RxPush) && fw.rx.m.frame.kind == 1
    ensures Toks(FwPipe(F.Do(fw, F.RxPush))) == Toks(FwPipe(fw))
  {
    hide F.LineAfter, F.DataIn, F.ReplyTo, Toks, FwPipe;
    FwToks(fw);
    FwToks(F.Do(fw, F.RxPush));
    ToksSnoc(fw.toTcp, fw.rx.m);
    assert Toks(fw.toTcp) + [] == Toks(fw.toTcp);
  }

  /** Handling a message turns its token over. */
  lemma TokensTurn(fw: F.Fw)
    requires F.Can(fw, F.TxHandle) && SentByDaemon(fw.tx.m)
    ensures Toks(FwPipe(F.Do(fw, F.TxHandle))) == Toks(FwPipe(fw))
  {
    hide F.LineAfter, F.DataIn, Toks, FwPipe;
    var gw := F.Do(fw, F.TxHandle);
    FwToks(fw);
    FwToks(gw);
    TokenTurned(fw);
    Associates(Toks(F.SendHand(fw)) + Toks(fw.toTcp), Toks(F.ReplyHand(fw)), Toks(F.TxHand(fw)));
    Associates(Toks(F.SendHand(fw)) + Toks(fw.toTcp), Toks(F.ReplyHand(gw)), Toks(F.TxHand(gw)));
  }

  lemma TokenTurned(fw: F.Fw)
    requires F.Can(fw, F.TxHandle) && SentByDaemon(fw.tx.m)
    ensures var gw := F.Do(fw, F.TxHandle);
            Toks(F.ReplyHand(gw)) + Toks(F.TxHand(gw)) == Toks(F.ReplyHand(fw)) + Toks(F.TxHand(fw))
  {
    hide F.LineAfter, F.DataIn, Toks;
    ToksOne(fw.tx.m);
    if F.IsControl(fw.tx.m) { ToksOne(F.ReplyTo(fw.resetEnabled, fw.tx.m)); }
  }

  /** The token a step takes in from the session, and the one it hands out. */
  function TokIn(a: F.Act): seq<nat> { if a.ReadMsg? then Tok(a.m) else [] }

  function TokOut(fw: F.Fw, a: F.Act): seq<nat> {
    if (a.SendOk? || a.SendFails?) && fw.tcp.Sending? then Tok(fw.tcp.m) else []
  }

  lemma RxHoldsData(fw: F.Fw)
    requires F.Inv(fw)
    ensures fw.rx.RxHolding? ==> fw.rx.m.frame.kind == 1
  {
  }

  lemma HandsAreSound(fw: F.Fw)
    requires F.Inv(fw) && ReadFromDaemon(fw)
    ensures fw.tx.TxHolding? ==> SentByDaemon(fw.tx.m)
  {
    hide SentByDaemon;
    if fw.tx.TxHolding? {
      assert fw.tx.m in F.TxHand(fw);
      assert fw.tx.m in fw.received;
    }
  }

  lemma PipeTakesIn(fw: F.Fw, m: Msg)
    requires F.Can(fw, F.ReadMsg(m))
    ensures FwPipe(F.Do(fw, F.ReadMsg(m))) == FwPipe(fw) + [m]
  {
  }

  lemma PipeHandsOut(fw: F.Fw, a: F.Act)
    requires F.Can(fw, a) && (a.SendOk? || a.SendFails?)
    ensures FwPipe(fw) != [] && FwPipe(fw)[0] == fw.tcp.m && FwPipe(fw)[1..] == FwPipe(F.Do(fw, a))
  {
    hide F.LineAfter, F.DataIn, F.ReplyTo;
    var gw := F.Do(fw, a);
    assert F.SendHand(fw) + fw.toTcp == [fw.tcp.m] + (F.SendHand(gw) + gw.toTcp);
    var x, y := F.SendHand(gw) + gw.toTcp, F.ReplyHand(fw);
    Associates([fw.tcp.m], x, y);
    Associates([fw.tcp.m], x + y, F.TxHand(fw));
    Associates([fw.tcp.m], x + y + F.TxHand(fw), fw.toUart);
    Associates([fw.tcp.m], x + y + F.TxHand(fw) + fw.toUart, []);
    assert FwPipe(fw) == [fw.tcp.m] + FwPipe(gw);
  }

  lemma PipeRests(fw: F.Fw, a: F.Act)
    requires F.Can(fw, a) && !a.PushToUart? && !a.Pop? && !a.TxTake? && !a.TxPush? && !a.RxPush? && !a.TxHandle?
    requires !a.ReadMsg? && !a.SendOk? && !a.SendFails?
    ensures FwPipe(F.Do(fw, a)) == FwPipe(fw)
  {
    hide F.LineAfter, F.DataIn, F.ReplyTo;
  }

  /** The firmware creates no token and drops none: one that comes in goes out again, in order. */
  lemma FirmwareKeepsTokens(fw: F.Fw, a: F.Act)
    requires F.Can(fw, a) && F.Inv(fw) && ReadFromDaemon(fw)
    ensures TokOut(fw, a) + Toks(FwPipe(F.Do(fw, a))) == Toks(FwPipe(fw)) + TokIn(a)
  {
    hide F.LineAfter, F.DataIn, F.ReplyTo, F.Inv, ReadFromDaemon, Tok, Toks, FwPipe, F.Do;
    var gw := F.Do(fw, a);
    if a.PushToUart? || a.Pop? || a.TxTake? || a.TxPush? {
      PipeMoves(fw, a);
    } else if a.RxPush? {
      RxHoldsData(fw);
      DataIsNoToken(fw);
    } else if a.TxHandle? {
      HandsAreSound(fw);
      TokensTurn(fw);
    } else if a.ReadMsg? {
      PipeTakesIn(fw, a.m);
      ToksSnoc(FwPipe(fw), a.m);
    } else if a.SendOk? || a.SendFails? {
      PipeHandsOut(fw, a);
      ToksCons(FwPipe(fw));
    } else {
      PipeRests(fw, a);
    }
    assert Toks(FwPipe(fw)) + [] == Toks(FwPipe(fw)) && [] + Toks(FwPipe(gw)) == Toks(FwPipe(gw));
  }

  // ---------------------------------------------------------------- settled sessions

  /** The waiting request, if any. */
  function Due(t: Task): seq<nat> { if t.waiting.Some? then [t.waiting.value] else [] }

  predicate InSession(s: Sys) { s.task.linked && Online(s.task) && s.sessions != [] }

  /** The firmware has served the newest session and dropped it. */
  predicate GivenUp(s: Sys) { s.fw.tcp.Accepting? && s.fw.sessions == |s.sessions| }

  /**
    The control messages on the way round are the waiting request's one, or nothing more is on the
    way because the firmware has given the session up.
   */
  predicate Settled(s: Sys) {
    InSession(s) && (Tokens(s) == Due(s.task) || (Tokens(s) == [] && GivenUp(s)))
  }

  predicate SameSession(s: Sys, t: Sys) { InSession(t) && |t.sessions| == |s.sessions| }

  /** A session the firmware has not got to holds the waiting request's frame, and nothing has come down it. */
  predicate UnservedInv(s: Sys) {
    InSession(s) && s.fw.sessions < |s.sessions| ==> Toks(Newest(s).upFlight) == Due(s.task) && Newest(s).downFlight == []
  }

  /** The pieces of the token list before and after an event of the daemon. */
  lemma TokensAfterSend(s: Sys, t: Sys, m: Msg)
    requires t.fw == s.fw && DownPipe(t) == DownPipe(s)
    requires UpPipe(t) == UpPipe(s) + [m]
    ensures Tokens(t) == Tokens(s) + Tok(m)
  {
    hide Toks, FwPipe, UpPipe, DownPipe, Tok;
    ToksSnoc(UpPipe(s), m);
    Associates(Toks(DownPipe(s)) + Toks(FwPipe(s.fw)), Toks(UpPipe(s)), Tok(m));
  }

  lemma TokensAfterTake(s: Sys, t: Sys)
    requires t.fw == s.fw && DownPipe(s) != [] && DownPipe(t) == DownPipe(s)[1..] && UpPipe(t) == UpPipe(s)
    ensures Tokens(s) == Tok(DownPipe(s)[0]) + Tokens(t)
  {
    hide Toks, FwPipe, UpPipe, DownPipe, Tok;
    ToksCons(DownPipe(s));
    var h := Tok(DownPipe(s)[0]);
    Associates(h, Toks(DownPipe(t)), Toks(FwPipe(s.fw)));
    Associates(h, Toks(DownPipe(t)) + Toks(FwPipe(s.fw)), Toks(UpPipe(s)));
  }

  /** How an event moves the two pipes on the wire. */
  predicate PipesMove(s: Sys, t: Sys, le: LinkEvent) {
    && t.fw == s.fw
    && (le.Sends? ==>
         && s.sessions != [] && DownPipe(t) == DownPipe(s)
         && UpPipe(t) == (if Serving(s) < |s.sessions| then UpPipe(s) + [MsgOf(le.m, le.tag)] else UpPipe(s))
         && |t.sessions| == |s.sessions| && Newest(t).upFlight == Newest(s).upFlight + [MsgOf(le.m, le.tag)])
    && (le.Takes? ==>
         && s.sessions != [] && DownPipe(s) != [] && F.Produced(DownPipe(s)[0]) && le.m == DeviceOf(DownPipe(s)[0])
         && DownPipe(t) == DownPipe(s)[1..] && UpPipe(t) == UpPipe(s)
         && |t.sessions| == |s.sessions| && Newest(t).upFlight == Newest(s).upFlight)
    && (le.Idle? && t.task.linked ==>
         && DownPipe(t) == DownPipe(s) && UpPipe(t) == UpPipe(s) && t.sessions == s.sessions)
    && (le.Opens? ==> t.sessions != [] && |t.sessions| > |s.sessions| && Newest(t) == NewSession)
  }

  lemma PipesMoveWithEvents(s: Sys, e: Event)
    requires WireInv(s) && LinkMatchesState(s.task) && CanSys(s, Daemon(e))
    requires forall m <- Retained(s.task.state) :: FromDaemon(m)
    ensures PipesMove(s, DoSys(s, Daemon(e)), LinkEventOf(s.task, e))
  {
    hide DoSys, CanSys, LinkMatchesState, LinkEventOf, UpPipe, SessionOk, UpIsWhole, DownIsWhole, Retained, RetainedMsgs, MsgOf,
      DeviceOf, F.Produced, Attempted, Encode;
    var t, le := DoSys(s, Daemon(e)), LinkEventOf(s.task, e);
    MovesWithEvents(s, e);
    UpPipeMoves(s, t, le);
    assert UpPipe(s) + [] == UpPipe(s);
  }

  lemma TokensSame(s: Sys, t: Sys)
    requires t.fw == s.fw && DownPipe(t) == DownPipe(s) && UpPipe(t) == UpPipe(s)
    ensures Tokens(t) == Tokens(s)
  {
    hide Toks, FwPipe, DownPipe, UpPipe;
  }

  lemma OpenedIsEmpty(ses: Session)
    requires ses == NewSession
    ensures Toks(ses.upFlight) == []
  {
  }

  lemma TokOfSent(m: DeviceMessage, tag: nat)
    requires FromDaemon(m)
    ensures Tok(MsgOf(m, tag)) == if m.ControlReq? then [tag] else []
  {
    MsgOfIsSentByDaemon(m, tag);
  }

  lemma TokOfTaken(m: Msg)
    requires F.Produced(m)
    ensures Tok(m) == if DeviceOf(m).ControlRes? then [m.tag] else []
  {
  }

  /** Nothing comes down a session the firmware has not got to. */
  lemma NothingFromUnserved(s: Sys)
    requires WireInv(s) && s.sessions != [] && DownPipe(s) != []
    ensures s.fw.sessions == |s.sessions|
  {
    hide SessionOk, UpIsWhole, DownIsWhole;
  }

  lemma UnservedStepDaemon(s: Sys, e: Event)
    requires WireInv(s) && LinkMatchesState(s.task) && UnservedInv(s) && CanSys(s, Daemon(e))
    requires forall m <- Retained(s.task.state) :: FromDaemon(m)
    ensures UnservedInv(DoSys(s, Daemon(e)))
  {
    hide React, Can, LinkMatchesState, LinkEventOf, Effects, SessionOk, UpIsWhole, DownIsWhole, Project,
      Tokens, Retained, RetainedMsgs, MsgOf, UpPipe, FwPipe, Toks, Decode, Encode, DeviceOf, F.Produced, Tok;
    var le, t := LinkEventOf(s.task, e), DoSys(s, Daemon(e));
    StateChangeOfEvents(s.task, e);
    PipesMoveWithEvents(s, e);
    match le {
      case Opens => OpenedIsEmpty(Newest(t));
      case Sends(m, tag, _) =>
        TokOfSent(m, tag);
        ToksSnoc(Newest(s).upFlight, MsgOf(m, tag));
      case Takes(_) => NothingFromUnserved(s);
      case Idle =>
      case Tears(_, _, _, _) =>
    }
  }

  lemma SettledStepDaemon(s: Sys, e: Event)
    requires WireInv(s) && LinkMatchesState(s.task) && Settled(s) && CanSys(s, Daemon(e))
    requires forall m <- Retained(s.task.state) :: FromDaemon(m)
    requires SameSession(s, DoSys(s, Daemon(e)))
    ensures Settled(DoSys(s, Daemon(e)))
  {
    hide React, Can, LinkMatchesState, LinkEventOf, Effects, SessionOk, UpIsWhole, DownIsWhole, Project,
      Tokens, Retained, RetainedMsgs, MsgOf, UpPipe, DownPipe, FwPipe, Toks, Decode, Encode, DeviceOf, F.Produced, Tok;
    var le, t := LinkEventOf(s.task, e), DoSys(s, Daemon(e));
    StateChangeOfEvents(s.task, e);
    PipesMoveWithEvents(s, e);
    match le {
      case Sends(m, tag, _) =>
        TokOfSent(m, tag);
        if Serving(s) < |s.sessions| { TokensAfterSend(s, t, MsgOf(m, tag)); } else { TokensSame(s, t); }
      case Takes(m) =>
        TokensAfterTake(s, t);
        TokOfTaken(DownPipe(s)[0]);
      case Idle => TokensSame(s, t);
      case Opens =>
      case Tears(_, _, _, _) =>
    }
  }

  // ---------------------------------------------------------------- steps of the device

  /** How a step of the device moves the two pipes on the wire. */
  predicate DevicePipes(s: Sys, t: Sys, a: F.Act)
    requires F.Can(s.fw, a)
  {
    && t.task == s.task && |t.sessions| == |s.sessions|
    && (a.ReadMsg? ==> UpPipe(s) == [a.m] + UpPipe(t))
    && (GivesUp(a) ==> Serving(s) < |s.sessions| && UpPipe(s) == s.sessions[Serving(s)].upFlight + UpPipe(t))
    && (!a.ReadMsg? && !GivesUp(a) ==> UpPipe(t) == UpPipe(s))
    && (a.SendOk? && s.task.linked && Serving(s) == |s.sessions| - 1 ==> DownPipe(t) == DownPipe(s) + [s.fw.tcp.m])
    && (!(a.SendOk? && s.task.linked && Serving(s) == |s.sessions| - 1) ==> DownPipe(t) == DownPipe(s))
    && (s.sessions != [] && s.fw.sessions < |s.sessions| ==> Newest(t).upFlight == Newest(s).upFlight)
  }

  lemma DevicePipesMove(s: Sys, a: F.Act, cut: nat)
    requires WireInv(s) && CanSys(s, Device(a, cut))
    ensures DevicePipes(s, DoSys(s, Device(a, cut)), a)
  {
    hide F.LineAfter, F.ReplyTo, F.DataIn, FrameBytes, ReadFrame, SessionOk, UpIsWhole, DownIsWhole, UpPipe, Tokens, FramesBytes;
    if a.ReadMsg? {
      PipeAfterReading(s, a.m, cut);
    } else if GivesUp(a) {
      PipeAfterGivingUp(s, a, cut);
    } else {
      PipeOtherwise(s, a, cut);
    }
  }

  /** The three parts of the token list, before and after a step of the device. */
  predicate TokensMove(s: Sys, t: Sys, a: F.Act) {
    var d, f, u := Toks(DownPipe(s)), Toks(FwPipe(t.fw)), Toks(UpPipe(t));
    if GivesUp(a) then
      && Serving(s) < |s.sessions|
      && Tokens(s) == d + (TokOut(s.fw, a) + f) + (Toks(s.sessions[Serving(s)].upFlight) + u)
      && Tokens(t) == d + f + u
    else if a.SendOk? && Serving(s) != |s.sessions| - 1 then
      Tokens(s) == d + (TokOut(s.fw, a) + f) + u && Tokens(t) == d + f + u
    else Tokens(t) == Tokens(s)
  }

  lemma DeviceTokens(s: Sys, a: F.Act, cut: nat)
    requires WireInv(s) && CanSys(s, Device(a, cut)) && F.Inv(s.fw) && ReadFromDaemon(s.fw) && s.task.linked
    ensures TokensMove(s, DoSys(s, Device(a, cut)), a)
  {
    hide F.Inv, F.Do, F.LineAfter, FrameBytes, ReadFrame, SessionOk, UpIsWhole, DownIsWhole, FwPipe, Toks, Tok, DownPipe, UpPipe,
      ReadFromDaemon, WireInv;
    var t := DoSys(s, Device(a, cut));
    DevicePipesMove(s, a, cut);
    FirmwareKeepsTokens(s.fw, a);
    var d, f, u := Toks(DownPipe(s)), Toks(FwPipe(t.fw)), Toks(UpPipe(t));
    var f0 := Toks(FwPipe(s.fw));
    assert t.fw == F.Do(s.fw, a);
    if GivesUp(a) {
      ToksAppend(s.sessions[Serving(s)].upFlight, UpPipe(t));
      assert f0 + [] == f0;
    } else if a.ReadMsg? {
      ToksAppend([a.m], UpPipe(t));
      ToksOne(a.m);
      assert [] + f == f;
      assert (d + (f0 + Tok(a.m))) + u == (d + f0) + (Tok(a.m) + u);
    } else if a.SendOk? {
      assert f0 + [] == f0;
      if Serving(s) == |s.sessions| - 1 {
        ToksSnoc(DownPipe(s), s.fw.tcp.m);
        Associates(d, Tok(s.fw.tcp.m), f);
      }
    } else {
      assert [] + f == f && f0 + [] == f0;
    }
  }

  /** While the firmware has not got to the newest session, every other place is free of tokens. */
  lemma OnlyNewestHolds(s: Sys)
    requires WireInv(s) && s.sessions != [] && s.fw.sessions < |s.sessions|
    requires Tokens(s) == Toks(Newest(s).upFlight)
    ensures Toks(DownPipe(s)) == [] && Toks(FwPipe(s.fw)) == []
    ensures Serving(s) < |s.sessions| - 1 ==> Toks(s.sessions[Serving(s)].upFlight) == []
  {
    hide Toks, FwPipe, DownPipe, SessionOk, UpIsWhole, DownIsWhole, Flights;
    var ss, cur := s.sessions, Serving(s);
    assert ss == ss[|ss| - 1 := Newest(s)];
    FlightsNewest(ss, cur, Newest(s));
    var older := Flights(ss[cur..|ss| - 1]);
    ToksAppend(older, Newest(s).upFlight);
    if cur < |ss| - 1 {
      FlightsFirst(ss[cur..|ss| - 1]);
      ToksAppend(ss[cur].upFlight, Flights(ss[cur..|ss| - 1][1..]));
    }
  }

  lemma FlightsFirst(ss: seq<Session>)
    requires ss != []
    ensures Flights(ss) == ss[0].upFlight + Flights(ss[1..])
  {
  }

  lemma UnservedStepDevice(s: Sys, a: F.Act, cut: nat)
    requires WireInv(s) && UnservedInv(s) && CanSys(s, Device(a, cut))
    ensures UnservedInv(DoSys(s, Device(a, cut)))
  {
    hide F.Inv, F.LineAfter, F.DataIn, F.ReplyTo, FrameBytes, ReadFrame, SessionOk, UpIsWhole, DownIsWhole, FwPipe, Toks,
      UpPipe, Tokens;
    DevicePipesMove(s, a, cut);
  }

  lemma SettledStepDevice(s: Sys, a: F.Act, cut: nat)
    requires WireInv(s) && F.Inv(s.fw) && ReadFromDaemon(s.fw) && UnservedInv(s) && Settled(s) && CanSys(s, Device(a, cut))
    ensures Settled(DoSys(s, Device(a, cut)))
  {
    hide F.Inv, F.LineAfter, F.DataIn, F.ReplyTo, FrameBytes, ReadFrame, SessionOk, UpIsWhole, DownIsWhole, FwPipe, Toks, Tok, DownPipe,
      UpPipe, ReadFromDaemon, Tokens, Flights, TokensMove;
    var t := DoSys(s, Device(a, cut));
    DeviceTokens(s, a, cut);
    DevicePipesMove(s, a, cut);
    if s.fw.sessions < |s.sessions| {
      OnlyNewestHolds(s);
      TokensStayInNewest(s, t, a);
    } else {
      TokensOnlyShrink(s, t, a);
    }
  }

  /** Before the firmware gets to the newest session its steps move no token. */
  lemma TokensStayInNewest(s: Sys, t: Sys, a: F.Act)
    requires F.Can(s.fw, a) && t.fw == F.Do(s.fw, a) && s.fw.sessions < |s.sessions|
    requires !s.fw.tcp.Accepting? ==> s.fw.sessions > 0
    requires F.Inv(s.fw) && ReadFromDaemon(s.fw)
    requires Toks(DownPipe(s)) == [] && Toks(FwPipe(s.fw)) == []
    requires Serving(s) < |s.sessions| - 1 ==> Toks(s.sessions[Serving(s)].upFlight) == []
    requires TokensMove(s, t, a)
    ensures Tokens(t) == Tokens(s)
  {
    hide F.Inv, F.LineAfter, F.DataIn, F.ReplyTo, FwPipe, Toks, Tok, DownPipe, UpPipe, ReadFromDaemon, Tokens;
    FirmwareKeepsTokens(s.fw, a);
    if GivesUp(a) || a.SendOk? {
      assert TokIn(a) == [];
      assert TokOut(s.fw, a) == [];
      assert [] + Toks(FwPipe(t.fw)) == Toks(FwPipe(t.fw)) && [] + Toks(UpPipe(t)) == Toks(UpPipe(t));
    }
  }

  /** In the newest session a step of the firmware keeps the tokens, or gives the session up. */
  lemma TokensOnlyShrink(s: Sys, t: Sys, a: F.Act)
    requires F.Can(s.fw, a) && s.fw.sessions == |s.sessions| && |Tokens(s)| <= 1
    requires !s.fw.tcp.Accepting? ==> s.fw.sessions > 0
    requires TokensMove(s, t, a)
    ensures Tokens(t) == Tokens(s) || (GivesUp(a) && Tokens(t) == [])
  {
    hide FwPipe, Toks, Tok, DownPipe, UpPipe, Tokens, F.Do, TokOut;
    if GivesUp(a) && Tokens(t) != [] {
      var d, f, u := Toks(DownPipe(s)), Toks(FwPipe(t.fw)), Toks(UpPipe(t));
      var o, g := TokOut(s.fw, a), Toks(s.sessions[Serving(s)].upFlight);
      assert |d + (o + f) + (g + u)| <= 1 && |d + f + u| >= 1;
      assert o == [] && g == [];
      assert [] + f == f && [] + u == u;
    }
  }
}
