/** What is on the way between the two ends, and what the two ends make of it over whole runs. */
module BridgeFlow {
  import opened Bytes
  import opened DeviceCodec
  import opened FrameReader
  import opened Subsequences
  import opened ConnProtocol
  import opened Bridge
  import opened BridgeLinks
  import opened BridgeWire
  import F = Firmware

  lemma {:induction false} FlightsAppend(a: seq<Session>, b: seq<Session>)
    ensures Flights(a + b) == Flights(a) + Flights(b)
  {
    if a == [] {
      assert a + b == b;
    } else {
      FlightsAppend(a[1..], b);
      assert (a + b)[1..] == a[1..] + b;
      Associates(a[0].upFlight, Flights(a[1..]), Flights(b));
    }
  }

  lemma FlightsOne(ses: Session)
    ensures Flights([ses]) == ses.upFlight
  {
    assert [ses][1..] == [];
    assert ses.upFlight + [] == ses.upFlight;
  }

  /** The newest session's frames come last. */
  lemma FlightsNewest(ss: seq<Session>, cur: nat, ses: Session)
    requires cur < |ss|
    ensures Flights(ss[|ss| - 1 := ses][cur..]) == Flights(ss[cur..|ss| - 1]) + ses.upFlight
  {
    assert ss[|ss| - 1 := ses][cur..] == ss[cur..|ss| - 1] + [ses];
    FlightsAppend(ss[cur..|ss| - 1], [ses]);
    FlightsOne(ses);
  }

  /** An event of the daemon adds to what the device has yet to read at most the message sent. */
  lemma UpPipeMoves(s: Sys, t: Sys, le: LinkEvent)
    requires Moves(s, t, le) && Serving(s) <= |s.sessions|
    ensures Serving(t) == Serving(s)
    ensures UpPipe(t) == UpPipe(s) + if le.Sends? && Serving(s) < |s.sessions| then [MsgOf(le.m, le.tag)] else []
  {
    hide StateChange, MsgOf, Flights, SessionOk, UpIsWhole, DownIsWhole, DeviceOf, F.Produced, Attempted;
    var ss, cur := s.sessions, Serving(s);
    assert UpPipe(s) + [] == UpPipe(s);
    if le.Opens? {
      assert (ss + [NewSession])[cur..] == ss[cur..] + [NewSession];
      FlightsAppend(ss[cur..], [NewSession]);
      FlightsOne(NewSession);
    } else if cur < |ss| {
      assert ss == ss[|ss| - 1 := Newest(s)];
      FlightsNewest(ss, cur, Newest(s));
      FlightsNewest(ss, cur, Newest(t));
      if le.Sends? {
        Associates(Flights(ss[cur..|ss| - 1]), Newest(s).upFlight, [MsgOf(le.m, le.tag)]);
      }
    } else {
      assert t.sessions[cur..] == [] == ss[cur..];
    }
  }

  // ---------------------------------------------------------------- daemon to UART

  /** What the firmware has read, what is on the way and what is retained, among the attempts. */
  ghost predicate UpInOrder(s: Sys) {
    Sub(s.fw.received + UpPipe(s) + RetainedMsgs(s.task), s.attempts)
  }

  /** Replacing the retained message while a new attempt may be logged. */
  lemma RetainedMoves(base: seq<Msg>, q: seq<Msg>, q': seq<Msg>, a: seq<Msg>, x: seq<Msg>)
    requires Sub(base + q, a)
    requires |x| <= 1 && (q' == [] || q' == q || (q == [] && q' == x))
    ensures Sub(base + q', a + x)
  {
    if q' == q {
      SubGrow(base + q, a, x);
    } else if q' == [] {
      assert base + q + [] == base + q && base + [] == base;
      SubDrop(base, q, [], a);
      SubGrow(base, a, x);
    } else {
      assert base + q == base && x == [x[0]];
      SubExtend(base, a, x[0]);
    }
  }

  lemma UpStepDaemon(s: Sys, e: Event)
    requires WireInv(s) && LinkMatchesState(s.task) && UpInOrder(s) && CanSys(s, Daemon(e))
    requires forall m <- Retained(s.task.state) :: FromDaemon(m)
    ensures UpInOrder(DoSys(s, Daemon(e)))
  {
    hide DoSys, CanSys, LinkMatchesState, LinkEventOf, SessionOk, UpIsWhole, DownIsWhole, Retained, RetainedMsgs, MsgOf,
      NewestMoves, UpPipe, Sub, Encode;
    var le, t := LinkEventOf(s.task, e), DoSys(s, Daemon(e));
    MovesWithEvents(s, e);
    UpPipeMoves(s, t, le);
    var r, p, q, q' := s.fw.received, UpPipe(s), RetainedMsgs(s.task), RetainedMsgs(t.task);
    var x := Attempted(le);
    if le.Sends? && Serving(s) < |s.sessions| {
      // the message joins the pipe: it was the retained one, or it is tried for the first time
      var m := [MsgOf(le.m, le.tag)];
      assert r + (p + m) + [] == r + p + m;
      if le.first {
        RetainedMoves(r + p, [], m, s.attempts, x);
      } else {
        assert s.attempts + [] == s.attempts;
      }
    } else {
      assert p + [] == p;
      RetainedMoves(r + p, q, q', s.attempts, x);
    }
  }

  /** What is read leaves the wire from the front. */
  lemma PipeAfterReading(s: Sys, m: Msg, cut: nat)
    requires WireInv(s) && CanSys(s, Device(F.ReadMsg(m), cut))
    ensures UpPipe(s) == [m] + UpPipe(DoSys(s, Device(F.ReadMsg(m), cut)))
  {
    hide F.LineAfter, F.ReplyTo, F.DataIn, FrameBytes, ReadFrame, SessionOk, UpIsWhole, DownIsWhole, Tokens, FramesBytes;
    var t, cur := DoSys(s, Device(F.ReadMsg(m), cut)), Serving(s);
    ReadIsOldest(s, m);
    var ses := s.sessions[cur];
    assert s.sessions[cur..][0] == ses && s.sessions[cur..][1..] == s.sessions[cur + 1..];
    assert t.sessions[cur..][0] == t.sessions[cur] && t.sessions[cur..][1..] == s.sessions[cur + 1..];
    assert ses.upFlight == [m] + ses.upFlight[1..];
    Associates([m], ses.upFlight[1..], Flights(s.sessions[cur + 1..]));
  }

  /** A message read moves from the wire to the firmware; a session given up loses what is on it. */
  lemma UpMoves(r: seq<Msg>, p: seq<Msg>, q: seq<Msg>, attempts: seq<Msg>, x: seq<Msg>, p': seq<Msg>)
    requires Sub(r + p + q, attempts) && p == x + p'
    ensures Sub((r + x) + p' + q, attempts) && Sub(r + p' + q, attempts)
  {
    hide Sub;
    assert (r + x) + p' + q == r + p + q;
    assert r + (x + p') + q == r + x + (p' + q);
    SubDrop(r, x, p' + q, attempts);
    assert r + (p' + q) == r + p' + q;
  }

  lemma UpStepDevice(s: Sys, a: F.Act, cut: nat)
    requires WireInv(s) && UpInOrder(s) && CanSys(s, Device(a, cut))
    ensures UpInOrder(DoSys(s, Device(a, cut)))
  {
    hide F.LineAfter, F.ReplyTo, F.DataIn, FrameBytes, ReadFrame, WireInv, UpPipe, Tokens, Sub, RetainedMsgs, Decode;
    var t := DoSys(s, Device(a, cut));
    var r, p, q := s.fw.received, UpPipe(s), RetainedMsgs(s.task);
    if a.ReadMsg? {
      PipeAfterReading(s, a.m, cut);
      UpMoves(r, p, q, s.attempts, [a.m], UpPipe(t));
    } else if GivesUp(a) {
      PipeAfterGivingUp(s, a, cut);
      UpMoves(r, p, q, s.attempts, s.sessions[Serving(s)].upFlight, UpPipe(t));
    } else {
      PipeOtherwise(s, a, cut);
    }
  }

  /** Giving a session up loses the frames on it and no others. */
  lemma PipeAfterGivingUp(s: Sys, a: F.Act, cut: nat)
    requires WireInv(s) && CanSys(s, Device(a, cut)) && GivesUp(a)
    ensures Serving(s) == s.fw.sessions - 1 < |s.sessions|
    ensures UpPipe(s) == s.sessions[Serving(s)].upFlight + UpPipe(DoSys(s, Device(a, cut)))
  {
    hide F.LineAfter, F.ReplyTo, F.DataIn, FrameBytes, SessionOk, UpIsWhole, DownIsWhole, Tokens;
    var t := DoSys(s, Device(a, cut));
    var cur := Serving(s);
    assert s.sessions[cur..][0] == s.sessions[cur] && s.sessions[cur..][1..] == s.sessions[cur + 1..];
    assert t.sessions[cur + 1..] == s.sessions[cur + 1..];
  }

  lemma PipeOtherwise(s: Sys, a: F.Act, cut: nat)
    requires WireInv(s) && CanSys(s, Device(a, cut)) && !GivesUp(a) && !a.ReadMsg?
    ensures UpPipe(DoSys(s, Device(a, cut))) == UpPipe(s)
    ensures F.Do(s.fw, a).received == s.fw.received
  {
    hide F.LineAfter, F.ReplyTo, F.DataIn, FrameBytes, SessionOk, UpIsWhole, DownIsWhole, Tokens, ReadFrame, FramesBytes;
    var t := DoSys(s, Device(a, cut));
    var cur := Serving(s);
    if a.SendOk? {
      assert s.sessions[cur..][0] == s.sessions[cur] && s.sessions[cur..][1..] == s.sessions[cur + 1..];
      assert t.sessions[cur..][0] == t.sessions[cur] && t.sessions[cur..][1..] == s.sessions[cur + 1..];
    }
  }

  // ---------------------------------------------------------------- UART to daemon

  /** What the daemon decoded, what is on the way and what is queued, among what was pushed. */
  ghost predicate DownInOrder(s: Sys) {
    Sub(s.got + DownPipe(s) + F.SendHand(s.fw) + s.fw.toTcp, s.fw.pushed)
  }

  /** Losing what is on the way. */
  lemma WithoutFlight(got: seq<Msg>, lost: seq<Msg>, rest: seq<Msg>, pushed: seq<Msg>)
    requires Sub(got + lost + rest, pushed)
    ensures Sub(got + [] + rest, pushed)
  {
    SubDrop(got, lost, rest, pushed);
    assert got + [] + rest == got + rest;
  }

  /** The oldest frame is decoded, or what is on the way stays or is lost. */
  lemma DownMoves(got: seq<Msg>, d: seq<Msg>, rest: seq<Msg>, pushed: seq<Msg>, got': seq<Msg>, d': seq<Msg>)
    requires Sub(got + d + rest, pushed)
    requires (got' == got && (d' == [] || d' == d)) || (d != [] && got' == got + [d[0]] && (d' == d[1..] || d' == []))
    ensures Sub(got' + d' + rest, pushed)
  {
    hide Sub;
    if got' != got {
      assert d == [d[0]] + d[1..];
      assert (got + [d[0]]) + d[1..] == got + d;
      if d' == [] { WithoutFlight(got', d[1..], rest, pushed); }
    } else if d' != d {
      WithoutFlight(got, d, rest, pushed);
    }
  }

  lemma DownPipeMoves(s: Sys, e: Event)
    requires WireInv(s) && LinkMatchesState(s.task) && CanSys(s, Daemon(e))
    requires forall m <- Retained(s.task.state) :: FromDaemon(m)
    ensures var t, d := DoSys(s, Daemon(e)), DownPipe(s);
            && t.fw == s.fw
            && ((t.got == s.got && (DownPipe(t) == [] || DownPipe(t) == d))
                || (d != [] && t.got == s.got + [d[0]] && (DownPipe(t) == d[1..] || DownPipe(t) == [])))
  {
    hide DoSys, CanSys, LinkMatchesState, LinkEventOf, SessionOk, UpIsWhole, DownIsWhole, Retained, RetainedMsgs, MsgOf,
      Encode, DeviceOf, F.Produced, Attempted;
    MovesWithEvents(s, e);
  }

  lemma DownStepDaemon(s: Sys, e: Event)
    requires WireInv(s) && LinkMatchesState(s.task) && DownInOrder(s) && CanSys(s, Daemon(e))
    requires forall m <- Retained(s.task.state) :: FromDaemon(m)
    ensures DownInOrder(DoSys(s, Daemon(e)))
  {
    hide WireInv, DoSys, CanSys, LinkMatchesState, Retained, FromDaemon, Sub, F.SendHand, DownPipe;
    DownPipeMoves(s, e);
    var t, rest := DoSys(s, Daemon(e)), F.SendHand(s.fw) + s.fw.toTcp;
    assert s.got + DownPipe(s) + F.SendHand(s.fw) + s.fw.toTcp == s.got + DownPipe(s) + rest;
    assert t.got + DownPipe(t) + F.SendHand(s.fw) + s.fw.toTcp == t.got + DownPipe(t) + rest;
    DownMoves(s.got, DownPipe(s), rest, s.fw.pushed, t.got, DownPipe(t));
  }

  /** A frame sent joins what is on the way to the daemon, or goes into a session it has left. */
  lemma DownSent(s: Sys, cut: nat)
    requires WireInv(s) && DownInOrder(s) && CanSys(s, Device(F.SendOk, cut))
    ensures DownInOrder(DoSys(s, Device(F.SendOk, cut)))
  {
    hide F.LineAfter, F.ReplyTo, F.DataIn, FrameBytes, ReadFrame, SessionOk, UpIsWhole, DownIsWhole, Tokens, Sub;
    var t, d, m := DoSys(s, Device(F.SendOk, cut)), DownPipe(s), s.fw.tcp.m;
    if DownPipe(t) == d + [m] {
      assert t.got + (d + [m]) + [] + t.fw.toTcp == s.got + d + [m] + s.fw.toTcp;
    } else {
      assert DownPipe(t) == d;
      SubDrop(s.got + d, [m], s.fw.toTcp, s.fw.pushed);
      assert s.got + d + [] + s.fw.toTcp == s.got + d + s.fw.toTcp;
    }
  }

  lemma DownStepDevice(s: Sys, a: F.Act, cut: nat)
    requires WireInv(s) && DownInOrder(s) && CanSys(s, Device(a, cut))
    ensures DownInOrder(DoSys(s, Device(a, cut)))
  {
    hide F.LineAfter, F.ReplyTo, F.DataIn, FrameBytes, ReadFrame, SessionOk, UpIsWhole, DownIsWhole, Tokens, Sub;
    var t := DoSys(s, Device(a, cut));
    var d := DownPipe(s);
    match a {
      case Pop =>
        assert s.fw.toTcp == [s.fw.toTcp[0]] + s.fw.toTcp[1..];
        assert t.got + d + [s.fw.toTcp[0]] + s.fw.toTcp[1..] == s.got + d + [] + s.fw.toTcp;
      case SendOk => DownSent(s, cut);
      case SendFails =>
        SubDrop(s.got + d, [s.fw.tcp.m], s.fw.toTcp, s.fw.pushed);
        assert DownPipe(t) == d;
        assert s.got + d + [] + s.fw.toTcp == s.got + d + s.fw.toTcp;
      case RxPush =>
        SubExtend(s.got + d + F.SendHand(s.fw) + s.fw.toTcp, s.fw.pushed, s.fw.rx.m);
        Associates(s.got + d + F.SendHand(s.fw), s.fw.toTcp, [s.fw.rx.m]);
      case TxPush =>
        SubExtend(s.got + d + F.SendHand(s.fw) + s.fw.toTcp, s.fw.pushed, s.fw.tx.m);
        Associates(s.got + d + F.SendHand(s.fw), s.fw.toTcp, [s.fw.tx.m]);
      case _ =>
        DownUnchanged(s, a, cut);
    }
  }

  lemma DownUnchanged(s: Sys, a: F.Act, cut: nat)
    requires CanSys(s, Device(a, cut))
    requires !a.Pop? && !a.SendOk? && !a.SendFails? && !a.RxPush? && !a.TxPush?
    ensures var t := DoSys(s, Device(a, cut));
            && t.got == s.got && DownPipe(t) == DownPipe(s) && F.SendHand(t.fw) == F.SendHand(s.fw)
            && t.fw.toTcp == s.fw.toTcp && t.fw.pushed == s.fw.pushed
  {
    hide F.LineAfter, F.ReplyTo, F.DataIn, FrameBytes, ReadFrame, Tokens;
  }
}
