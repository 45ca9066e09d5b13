/**
  What the firmware makes of a frame, told by the frame alone: which bytes go to the UART, what
  changes the line, what is answered and how; and the same of whole runs, read with the daemon's
  own decoder.
 */
module FirmwareEffects {
  import opened Bytes
  import opened Streams
  import opened DeviceCodec
  import opened FrameReader
  import opened UartLine
  import opened Firmware

  /** Only data is written, only a full configuration changes the line, only a one-byte command is answered. */
  lemma HandlingByKind(s: Fw)
    requires Can(s, TxHandle)
    ensures var t, f := Do(s, TxHandle), s.tx.m.frame;
            && (f.kind != 1 ==> t.uartOut == s.uartOut) && (f.kind == 1 ==> t.uartOut == s.uartOut + f.body)
            && (f.kind != 2 || |f.body| != 8 ==> t.line == s.line)
            && (t.tx.TxIdle? <==> f.kind != 3 || |f.body| != 1)
            && (t.tx.TxReplying? <==> f.kind == 3 && |f.body| == 1)
            && (t.tx.TxReplying? ==>
                 t.tx.m == Msg(Frame(4, [if f.body[0] == 1 && s.resetEnabled then 1 else 2]), s.tx.m.tag))
  {
  }

  /** Nothing else writes, configures or answers. */
  lemma OnlyHandlingActs(s: Fw, a: Act)
    requires Can(s, a) && !a.TxHandle?
    ensures Do(s, a).uartOut == s.uartOut && Do(s, a).line == s.line && (Do(s, a).tx.TxReplying? ==> s.tx.TxReplying?)
  {
  }

  /** A client that has written and an eventfd that is set are both served in one pass. */
  lemma PassServesBoth(s: Fw, m: Msg)
    requires s.tcp.Selecting? && s.efd > 0 && |s.toUart| < 16
    ensures Can(s, SelectReturns(true)) && Can(Do(s, SelectReturns(true)), ReadMsg(m))
    ensures var t := Do(Do(s, SelectReturns(true)), ReadMsg(m));
            && Can(t, PushToUart) && Can(Do(t, PushToUart), ReadEventfd)
            && Do(Do(t, PushToUart), ReadEventfd) ==
               s.(tcp := Draining, efd := 0, toUart := s.toUart + [m], received := s.received + [m])
  {
  }

  /** A session begins with an accept and ends with the first call of `tcp_task` that fails, and only so. */
  lemma SessionEndsIff(s: Fw, a: Act)
    requires Can(s, a)
    ensures var t := Do(s, a);
            && t.sessions == s.sessions + (if a.AcceptClient? then 1 else 0)
            && (s.tcp.Accepting? ==> (t.tcp.Accepting? <==> !a.AcceptClient?) && (a.AcceptClient? ==> t.tcp.Selecting?))
            && (!s.tcp.Accepting? ==> (t.tcp.Accepting? <==> a.SelectFails? || a.ReadFails? || a.SendFails?))
  {
  }

  /** Once begun, a drain goes on until the queue is found empty or a send fails, one message at a time. */
  lemma DrainGoesOn(s: Fw, a: Act)
    requires Can(s, a)
    ensures var t := Do(s, a);
            && (s.tcp.Draining? ==>
                 (t.tcp.Draining? || t.tcp.Sending? || (a.QueueEmpty? && s.toTcp == [] && t.tcp.Selecting?)))
            && (s.tcp.Sending? ==> ((t.tcp == s.tcp || t.tcp.Draining?) <==> !a.SendFails?))
            && (t.tcp.Sending? && !s.tcp.Sending? ==> s.tcp.Draining? && s.toTcp == [t.tcp.m] + t.toTcp)
  {
  }

  // ---------------------------------------------------------------- data

  /** The data of a frame, as the daemon's decoder reads it. */
  function Payload1(m: Msg): seq<byte> {
    match Decode(FrameBytes(m.frame))
    case Item(Data(size, body), _) => body[..size]
    case _ => []
  }

  function Payloads(ms: seq<Msg>): seq<byte>
    decreases |ms|
  {
    if ms == [] then [] else Payloads(ms[..|ms| - 1]) + Payload1(ms[|ms| - 1])
  }

  lemma PayloadByKind(m: Msg)
    ensures Payload1(m) == if m.frame.kind == 1 then m.frame.body else []
  {
    var s := FrameBytes(m.frame);
    assert s[0] == m.frame.kind && s[1] == |m.frame.body| && s[2..2 + s[1]] == m.frame.body;
  }

  lemma {:induction false} PayloadsAreData(ms: seq<Msg>)
    ensures Payloads(ms) == DataOf(ms)
    decreases |ms|
  {
    hide Payload1;
    if ms != [] {
      PayloadsAreData(ms[..|ms| - 1]);
      PayloadByKind(ms[|ms| - 1]);
    }
  }

  /** In every reachable state: the UART has been written the data of the frames handled, and nothing else. */
  lemma UartGetsDataOnly(s: Fw)
    requires Reachable(s)
    ensures s.uartOut == Payloads(s.handled)
  {
    hide Reachable, DataOf, Payloads, NotificationInv, RepliesNeedControl, InboundConserved, OutboundConserved, LossBounded, UartInOrder,
      RepliesInOrder, AllProduced, LineOf;
    ReachableInv(s);
    PayloadsAreData(s.handled);
  }

  // ---------------------------------------------------------------- replies

  /** The one-byte commands among the frames, in order. */
  function Commands(ms: seq<Msg>): seq<Msg>
    decreases |ms|
  {
    if ms == [] then []
    else
      var m := ms[|ms| - 1];
      Commands(ms[..|ms| - 1]) + if m.frame.kind == 3 && |m.frame.body| == 1 then [m] else []
  }

  /** `r` is the answer to command `c`. */
  predicate Answers(resetEnabled: bool, r: Msg, c: Msg)
    requires |c.frame.body| == 1
  {
    && r.tag == c.tag && r.frame.kind == 4 && |r.frame.body| == 1
    && (r.frame.body[0] == 1 <==> c.frame.body[0] == 1 && resetEnabled)
    && (r.frame.body[0] == 2 <==> c.frame.body[0] != 1 || !resetEnabled)
  }

  predicate AllAnswer(resetEnabled: bool, rs: seq<Msg>, cs: seq<Msg>) {
    |rs| == |cs| && forall i :: 0 <= i < |rs| ==> |cs[i].frame.body| == 1 && Answers(resetEnabled, rs[i], cs[i])
  }

  lemma {:induction false} RepliesAnswer(resetEnabled: bool, ms: seq<Msg>)
    ensures AllAnswer(resetEnabled, RepliesTo(resetEnabled, ms), Commands(ms))
    decreases |ms|
  {
    if ms != [] {
      RepliesAnswer(resetEnabled, ms[..|ms| - 1]);
    }
  }

  /**
    In every reachable state: the replies pushed and the one in hand answer the commands handled, one
    for one and in order, with success exactly for a reset that is compiled in.
   */
  lemma RepliesAreRight(s: Fw)
    requires Reachable(s)
    ensures AllAnswer(s.resetEnabled, RepliesIn(s.pushed) + ReplyHand(s), Commands(s.handled))
  {
    hide Reachable, RepliesIn, RepliesTo, NotificationInv, RepliesNeedControl, InboundConserved, OutboundConserved, LossBounded,
      UartInOrder, AllProduced, EffectsOfHandled, AllAnswer, Commands;
    ReachableInv(s);
    RepliesAnswer(s.resetEnabled, s.handled);
  }

  lemma {:induction false} PushedRepliesAreIn(ms: seq<Msg>, m: Msg)
    requires m in ms && m.frame.kind == 4
    ensures m in RepliesIn(ms)
    decreases |ms|
  {
    if ms[|ms| - 1] != m {
      PushedRepliesAreIn(ms[..|ms| - 1], m);
    }
  }

  /** Success is only ever answered by a firmware that can reset, and failure to a reset only by one that cannot. */
  lemma SuccessNeedsReset(s: Fw, m: Msg)
    requires ConservationInv(s) && m in s.pushed && m.frame.kind == 4
    ensures m.frame.body == [1] ==> s.resetEnabled
    ensures (forall c <- s.handled :: c.frame.kind == 3 ==> c.frame.body == [1]) ==> (m.frame.body == [1] <==> s.resetEnabled)
  {
    hide RepliesTo, RepliesIn, InboundConserved, OutboundConserved, LossBounded, UartInOrder, AllProduced, EffectsOfHandled, Commands;
    PushedRepliesAreIn(s.pushed, m);
    RepliesAnswer(s.resetEnabled, s.handled);
    var rs := RepliesTo(s.resetEnabled, s.handled);
    assert m in rs;
    var i :| 0 <= i < |rs| && rs[i] == m;
    CommandsAreHandled(s.handled, Commands(s.handled)[i]);
  }

  lemma {:induction false} CommandsAreHandled(ms: seq<Msg>, c: Msg)
    requires c in Commands(ms)
    ensures c in ms && c.frame.kind == 3
    decreases |ms|
  {
    if !(ms[|ms| - 1].frame.kind == 3 && ms[|ms| - 1] == c) {
      CommandsAreHandled(ms[..|ms| - 1], c);
    }
  }
}
