/**
  The firmware's three tasks (server/main/tcp.c, server/main/uart.c) as a state machine.

  `tcp_task`, `uart_rx_task` and `uart_tx_task` run interleaved. They share two bounded queues and
  an eventfd counter, and each action below is one blocking call or one run of local code between
  blocking calls. A client may send anything and fail at any time; the UART may deliver any bytes.
 */
module Firmware {
  import opened Bytes
  import opened FrameReader
  import opened UartLine

  const TO_UART_DEPTH := 16
  const TO_TCP_DEPTH := 128

  /** A queued frame. No action looks at `tag`: it only tells which request a frame stems from. */
  datatype Msg = Msg(frame: Frame, tag: nat)

  /** Where `tcp_task` stands. `notified`: `select` found the eventfd readable as well. */
  datatype TcpPc =
    | Accepting
    | Selecting
    | Reading(notified: bool)
    | Pushing(m: Msg, notified: bool)
    | Notified
    | Draining
    | Sending(m: Msg)

  datatype RxPc = RxIdle | RxHolding(m: Msg) | RxPushed

  datatype TxPc = TxIdle | TxHolding(m: Msg) | TxReplying(m: Msg) | TxReplied

  /** A frame taken off the queue to the client, and whether `send` delivered all of it. */
  datatype Outgoing = Outgoing(m: Msg, sentWhole: bool)

  /** The state shared by the tasks, then the histories that only the proofs look at. */
  datatype Fw = Fw(
    resetEnabled: bool,
    allowFlow: bool,
    tcp: TcpPc,
    rx: RxPc,
    tx: TxPc,
    toUart: seq<Msg>,
    toTcp: seq<Msg>,
    efd: nat,
    line: Line,
    sessions: nat,
    received: seq<Msg>,
    handled: seq<Msg>,
    uartIn: seq<byte>,
    uartOut: seq<byte>,
    pushed: seq<Msg>,
    out: seq<Outgoing>)

  const BootLine := Line(115200, Bits8, One, Disabled, false)

  function Init(resetEnabled: bool, allowFlow: bool): Fw {
    Fw(resetEnabled, allowFlow, Accepting, RxIdle, TxIdle, [], [], 0, BootLine, 0, [], [], [], [], [], [])
  }

  datatype Act =
    // tcp_task
    | AcceptClient
    | SelectFails
    | SelectReturns(client: bool)
    | ReadFails
    | ReadMsg(m: Msg)
    | PushToUart
    | ReadEventfd
    | Pop
    | QueueEmpty
    | SendOk
    | SendFails
    // uart_rx_task
    | UartChunk(bytes: Chunk)
    | RxPush
    | RxNotify
    // uart_tx_task
    | TxTake
    | TxHandle
    | TxPush
    | TxNotify

  predicate IsControl(m: Msg) {
    m.frame.kind == 3 && |m.frame.body| == 1
  }

  /** The answer `handle_control` makes: reset is command 1 and may be compiled out. */
  function ReplyTo(resetEnabled: bool, m: Msg): Msg
    requires IsControl(m)
  {
    Msg(Frame(4, [if m.frame.body[0] == 1 && resetEnabled then 1 else 2]), m.tag)
  }

  /** The line settings after a message. */
  function LineAfter(line: Line, allowFlow: bool, m: Msg): Line {
    if m.frame.kind == 2 && |m.frame.body| == 8 then Applied(line, ConfigFieldsOf(m.frame.body), allowFlow) else line
  }

  /** The bytes a message puts on the UART, or carries from it. */
  function DataIn(m: Msg): seq<byte> {
    if m.frame.kind == 1 then m.frame.body else []
  }

  predicate Can(s: Fw, a: Act) {
    match a
    case AcceptClient => s.tcp.Accepting?
    case SelectFails => s.tcp.Selecting?
    case SelectReturns(client) => s.tcp.Selecting? && (client || s.efd > 0)
    case ReadFails => s.tcp.Reading?
    case ReadMsg(_) => s.tcp.Reading?
    case PushToUart => s.tcp.Pushing? && |s.toUart| < TO_UART_DEPTH
    case ReadEventfd => s.tcp.Notified?
    case Pop => s.tcp.Draining? && s.toTcp != []
    case QueueEmpty => s.tcp.Draining? && s.toTcp == []
    case SendOk => s.tcp.Sending?
    case SendFails => s.tcp.Sending?
    case UartChunk(bytes) => s.rx.RxIdle? && bytes != []
    case RxPush => s.rx.RxHolding? && |s.toTcp| < TO_TCP_DEPTH
    case RxNotify => s.rx.RxPushed?
    case TxTake => s.tx.TxIdle? && s.toUart != []
    case TxHandle => s.tx.TxHolding?
    case TxPush => s.tx.TxReplying? && |s.toTcp| < TO_TCP_DEPTH
    case TxNotify => s.tx.TxReplied?
  }

  function Do(s: Fw, a: Act): Fw
    requires Can(s, a)
  {
    match a
    case AcceptClient => s.(tcp := Selecting, sessions := s.sessions + 1)
    case SelectFails => s.(tcp := Accepting)
    case SelectReturns(client) => s.(tcp := if client then Reading(s.efd > 0) else Notified)
    case ReadFails => s.(tcp := Accepting)
    case ReadMsg(m) => s.(tcp := Pushing(m, s.tcp.notified), received := s.received + [m])
    case PushToUart => s.(toUart := s.toUart + [s.tcp.m], tcp := if s.tcp.notified then Notified else Selecting)
    case ReadEventfd => s.(efd := 0, tcp := Draining)
    case Pop => s.(tcp := Sending(s.toTcp[0]), toTcp := s.toTcp[1..])
    case QueueEmpty => s.(tcp := Selecting)
    case SendOk => s.(tcp := Draining, out := s.out + [Outgoing(s.tcp.m, true)])
    case SendFails => s.(tcp := Accepting, out := s.out + [Outgoing(s.tcp.m, false)])
    case UartChunk(bytes) => s.(rx := RxHolding(Msg(Frame(1, bytes), 0)), uartIn := s.uartIn + bytes)
    case RxPush => s.(rx := RxPushed, toTcp := s.toTcp + [s.rx.m], pushed := s.pushed + [s.rx.m])
    case RxNotify => s.(rx := RxIdle, efd := s.efd + 1)
    case TxTake => s.(tx := TxHolding(s.toUart[0]), toUart := s.toUart[1..])
    case TxHandle =>
      var m := s.tx.m;
      s.(tx := if IsControl(m) then TxReplying(ReplyTo(s.resetEnabled, m)) else TxIdle,
         line := LineAfter(s.line, s.allowFlow, m),
         uartOut := s.uartOut + DataIn(m),
         handled := s.handled + [m])
    case TxPush => s.(tx := TxReplied, toTcp := s.toTcp + [s.tx.m], pushed := s.pushed + [s.tx.m])
    case TxNotify => s.(tx := TxIdle, efd := s.efd + 1)
  }

  /** The state after a run of actions, if each was possible when its turn came. */
  function Exec(s: Fw, acts: seq<Act>): Option<Fw>
    decreases |acts|
  {
    if acts == [] then Some(s)
    else
      match Exec(s, acts[..|acts| - 1])
      case None => None
      case Some(u) => if Can(u, acts[|acts| - 1]) then Some(Do(u, acts[|acts| - 1])) else None
  }

  ghost predicate Reachable(s: Fw) {
    exists r, f, acts :: Exec(Init(r, f), acts) == Some(s)
  }

  lemma ReachStep(s: Fw, a: Act)
    requires Reachable(s) && Can(s, a)
    ensures Reachable(Do(s, a))
  {
    var r, f, acts :| Exec(Init(r, f), acts) == Some(s);
    assert (acts + [a])[..|acts|] == acts;
    assert Exec(Init(r, f), acts + [a]) == Some(Do(s, a));
  }

  // ---------------------------------------------------------------- what each task holds

  function TcpHand(s: Fw): seq<Msg> { if s.tcp.Pushing? then [s.tcp.m] else [] }
  function TxHand(s: Fw): seq<Msg> { if s.tx.TxHolding? then [s.tx.m] else [] }
  function ReplyHand(s: Fw): seq<Msg> { if s.tx.TxReplying? then [s.tx.m] else [] }
  function RxHand(s: Fw): seq<Msg> { if s.rx.RxHolding? then [s.rx.m] else [] }
  function SendHand(s: Fw): seq<Msg> { if s.tcp.Sending? then [s.tcp.m] else [] }

  // ---------------------------------------------------------------- queue bounds and notification

  predicate Bounded(s: Fw) {
    |s.toUart| <= TO_UART_DEPTH && |s.toTcp| <= TO_TCP_DEPTH
  }

  /** A pass of `tcp_task` that saw the eventfd readable still finds it readable. */
  predicate NoticeIsPending(s: Fw) {
    (s.tcp.Notified? || (s.tcp.Reading? && s.tcp.notified) || (s.tcp.Pushing? && s.tcp.notified)) ==> s.efd > 0
  }

  /** Some producer has pushed and is about to write the eventfd. */
  predicate NotifierAtWork(s: Fw) {
    s.rx.RxPushed? || s.tx.TxReplied?
  }

  /** Whoever waits for room in a full queue to the client will be let in. */
  predicate FullQueueIsNoticed(s: Fw) {
    |s.toTcp| == TO_TCP_DEPTH ==> s.efd > 0 || NotifierAtWork(s) || s.tcp.Draining?
  }

  /** A message in the queue to the client will be noticed. */
  predicate WakeupPending(s: Fw) {
    s.toTcp != [] ==> s.efd > 0 || NotifierAtWork(s) || s.tcp.Draining? || s.tcp.Sending?
  }

  predicate NoSendFailed(s: Fw) {
    forall o <- s.out :: o.sentWhole
  }

  predicate NotificationInv(s: Fw) {
    && Bounded(s)
    && NoticeIsPending(s)
    && FullQueueIsNoticed(s)
    && (NoSendFailed(s) ==> WakeupPending(s))
  }

  lemma NotificationStep(s: Fw, a: Act)
    requires NotificationInv(s) && Can(s, a)
    ensures NotificationInv(Do(s, a))
  {
    var t := Do(s, a);
    assert forall o :: o in s.out ==> o in t.out;
    if a.SendFails? {
      assert t.out[|s.out|] in t.out;
    }
  }

  /**
    A step loses a pending wakeup exactly when it is a failed send that leaves messages behind
    with the eventfd already reset and no producer about to write it.
   */
  lemma WakeupLostIffSendFailsUnnoticed(s: Fw, a: Act)
    requires NoticeIsPending(s) && WakeupPending(s) && Can(s, a)
    ensures WakeupPending(Do(s, a)) <==>
            !(a.SendFails? && s.toTcp != [] && s.efd == 0 && !NotifierAtWork(s))
  {
  }

  /** Messages are waiting that nothing under way will notice. */
  predicate Stranded(s: Fw) {
    NoticeIsPending(s) && !WakeupPending(s)
  }

  /** Stranded messages stay where they are, over any number of sessions, until a producer pushes. */
  lemma StrandedUntilNextPush(s: Fw, a: Act)
    requires Stranded(s) && Can(s, a)
    ensures var t := Do(s, a);
            if a.RxPush? || a.TxPush? then WakeupPending(t) && s.toTcp < t.toTcp
            else Stranded(t) && t.toTcp == s.toTcp
  {
  }

  // ---------------------------------------------------------------- the circular wait

  /** No action of `uart_tx_task` is possible. */
  predicate TxStuck(s: Fw) {
    !Can(s, TxTake) && !Can(s, TxHandle) && !Can(s, TxPush) && !Can(s, TxNotify)
  }

  predicate TcpStuckPushing(s: Fw) {
    s.tcp.Pushing? && !Can(s, PushToUart)
  }

  predicate CircularWait(s: Fw) {
    && s.tcp.Pushing? && |s.toUart| == TO_UART_DEPTH
    && s.tx.TxReplying? && |s.toTcp| == TO_TCP_DEPTH
  }

  /** The two tasks stand still together exactly when each waits for the other to empty a queue. */
  lemma StuckTogetherIffCircularWait(s: Fw)
    requires Bounded(s)
    ensures TcpStuckPushing(s) && TxStuck(s) <==> CircularWait(s)
  {
  }

  /** A reply is under way only once a control message has been handled. */
  predicate RepliesNeedControl(s: Fw) {
    s.tx.TxReplying? || s.tx.TxReplied? ==> exists m <- s.handled :: IsControl(m)
  }

  lemma RepliesNeedControlStep(s: Fw, a: Act)
    requires RepliesNeedControl(s) && Can(s, a)
    ensures RepliesNeedControl(Do(s, a))
  {
    var t := Do(s, a);
    assert forall m :: m in s.handled ==> m in t.handled;
    if a.TxHandle? {
      assert t.handled[|s.handled|] in t.handled;
    }
  }

  /** No step leads out of the circular wait, and nothing the two tasks share moves again. */
  lemma CircularWaitPersists(s: Fw, a: Act)
    requires CircularWait(s) && Can(s, a)
    ensures var t := Do(s, a);
            CircularWait(t) && t.tcp == s.tcp && t.tx == s.tx && t.toUart == s.toUart && t.toTcp == s.toTcp
  {
  }

  lemma {:induction false} CircularWaitIsForever(s: Fw, acts: seq<Act>)
    requires CircularWait(s) && Exec(s, acts).Some?
    ensures var t := Exec(s, acts).value;
            CircularWait(t) && t.toUart == s.toUart && t.toTcp == s.toTcp && t.out == s.out && t.handled == s.handled
    decreases |acts|
  {
    if acts != [] {
      var before := acts[..|acts| - 1];
      CircularWaitIsForever(s, before);
      CircularWaitPersists(Exec(s, before).value, acts[|acts| - 1]);
    }
  }

  // ---------------------------------------------------------------- conservation

  /** The bytes of the data messages, in order. */
  function DataOf(ms: seq<Msg>): seq<byte>
    decreases |ms|
  {
    if ms == [] then [] else DataOf(ms[..|ms| - 1]) + DataIn(ms[|ms| - 1])
  }

  lemma DataOfSnoc(ms: seq<Msg>, m: Msg)
    ensures DataOf(ms + [m]) == DataOf(ms) + DataIn(m)
  {
    assert (ms + [m])[..|ms|] == ms;
  }

  /** The answers due for the control messages, in order. */
  function RepliesTo(resetEnabled: bool, ms: seq<Msg>): seq<Msg>
    decreases |ms|
  {
    if ms == [] then []
    else
      var m := ms[|ms| - 1];
      RepliesTo(resetEnabled, ms[..|ms| - 1]) + if IsControl(m) then [ReplyTo(resetEnabled, m)] else []
  }

  lemma RepliesToSnoc(r: bool, ms: seq<Msg>, m: Msg)
    ensures RepliesTo(r, ms + [m]) == RepliesTo(r, ms) + if IsControl(m) then [ReplyTo(r, m)] else []
  {
    assert (ms + [m])[..|ms|] == ms;
  }

  /** The messages `uart_tx_task` pushed, picked out of both producers'. */
  function RepliesIn(ms: seq<Msg>): seq<Msg>
    decreases |ms|
  {
    if ms == [] then []
    else RepliesIn(ms[..|ms| - 1]) + if ms[|ms| - 1].frame.kind == 4 then [ms[|ms| - 1]] else []
  }

  lemma RepliesInSnoc(ms: seq<Msg>, m: Msg)
    ensures RepliesIn(ms + [m]) == RepliesIn(ms) + if m.frame.kind == 4 then [m] else []
  {
    assert (ms + [m])[..|ms|] == ms;
  }

  /** The line settings after a sequence of messages. */
  function LineOf(allowFlow: bool, ms: seq<Msg>): Line
    decreases |ms|
  {
    if ms == [] then BootLine else LineAfter(LineOf(allowFlow, ms[..|ms| - 1]), allowFlow, ms[|ms| - 1])
  }

  lemma LineOfSnoc(f: bool, ms: seq<Msg>, m: Msg)
    ensures LineOf(f, ms + [m]) == LineAfter(LineOf(f, ms), f, m)
  {
    assert (ms + [m])[..|ms|] == ms;
  }

  function Taken(out: seq<Outgoing>): seq<Msg>
    decreases |out|
  {
    if out == [] then [] else Taken(out[..|out| - 1]) + [out[|out| - 1].m]
  }

  lemma TakenSnoc(out: seq<Outgoing>, o: Outgoing)
    ensures Taken(out + [o]) == Taken(out) + [o.m]
  {
    assert (out + [o])[..|out|] == out;
  }

  function Failures(out: seq<Outgoing>): nat
    decreases |out|
  {
    if out == [] then 0 else Failures(out[..|out| - 1]) + if out[|out| - 1].sentWhole then 0 else 1
  }

  lemma FailuresSnoc(out: seq<Outgoing>, o: Outgoing)
    ensures Failures(out + [o]) == Failures(out) + if o.sentWhole then 0 else 1
  {
    assert (out + [o])[..|out|] == out;
  }

  /** Towards the UART: nothing received is lost, repeated or reordered. */
  predicate InboundConserved(s: Fw) {
    s.received == s.handled + TxHand(s) + s.toUart + TcpHand(s)
  }

  /** Towards the client: what was pushed was taken out, is being sent, or is still queued. */
  predicate OutboundConserved(s: Fw) {
    s.pushed == Taken(s.out) + SendHand(s) + s.toTcp
  }

  /** What a producer makes: chunks of 1 to 255 bytes, and one-byte replies. */
  predicate Produced(m: Msg) {
    || (m.frame.kind == 1 && m.frame.body != [] && m.tag == 0)
    || (m.frame.kind == 4 && (m.frame.body == [1] || m.frame.body == [2]))
  }

  /** `uart_rx_task`: the chunks it pushed and the one it holds are the UART's bytes, in order. */
  predicate UartInOrder(s: Fw) {
    && s.uartIn == DataOf(s.pushed) + DataOf(RxHand(s))
    && (s.tx.TxReplying? ==> s.tx.m.frame.kind == 4)
  }

  /** `uart_tx_task`: the replies it pushed and the one it holds answer what it handled, in order. */
  predicate RepliesInOrder(s: Fw) {
    && RepliesTo(s.resetEnabled, s.handled) == RepliesIn(s.pushed) + ReplyHand(s)
    && (s.rx.RxHolding? ==> s.rx.m.frame.kind == 1)
    && (s.tx.TxReplying? ==> s.tx.m.frame.kind == 4)
  }

  predicate AllProduced(s: Fw) {
    && (forall m <- s.pushed :: Produced(m))
    && (s.rx.RxHolding? ==> Produced(s.rx.m))
    && (s.tx.TxReplying? ==> Produced(s.tx.m))
  }

  predicate EffectsOfHandled(s: Fw) {
    s.uartOut == DataOf(s.handled) && s.line == LineOf(s.allowFlow, s.handled)
  }

  predicate LossBounded(s: Fw) {
    Failures(s.out) + (if s.tcp.Accepting? then 0 else 1) <= s.sessions
  }

  predicate ConservationInv(s: Fw) {
    && InboundConserved(s) && OutboundConserved(s) && LossBounded(s)
    && UartInOrder(s) && RepliesInOrder(s) && AllProduced(s) && EffectsOfHandled(s)
  }

  lemma InboundStep(s: Fw, a: Act)
    requires InboundConserved(s) && Can(s, a)
    ensures InboundConserved(Do(s, a))
  {
    hide LineAfter, ReplyTo, DataIn;
    var t := Do(s, a);
    match a {
      case PushToUart =>
        Associates(s.handled + TxHand(s), s.toUart, [s.tcp.m]);
        assert t.handled + TxHand(t) + t.toUart + [] == t.handled + TxHand(t) + t.toUart;
      case TxTake =>
        assert s.toUart == [s.toUart[0]] + s.toUart[1..];
        assert s.handled + [] == s.handled;
        Associates(s.handled, [s.toUart[0]], s.toUart[1..]);
      case TxHandle =>
        assert t.handled + [] == t.handled;
      case ReadMsg(m) =>
        assert s.handled + TxHand(s) + s.toUart + [] == s.handled + TxHand(s) + s.toUart;
      case _ =>
        assert TcpHand(t) == TcpHand(s) && TxHand(t) == TxHand(s);
    }
  }

  lemma EffectsStep(s: Fw, a: Act)
    requires EffectsOfHandled(s) && Can(s, a)
    ensures EffectsOfHandled(Do(s, a))
  {
    hide LineAfter, ReplyTo, DataIn, DataOf, LineOf;
    if a.TxHandle? {
      DataOfSnoc(s.handled, s.tx.m);
      LineOfSnoc(s.allowFlow, s.handled, s.tx.m);
    }
  }

  lemma OutboundStep(s: Fw, a: Act)
    requires OutboundConserved(s) && LossBounded(s) && Can(s, a)
    ensures OutboundConserved(Do(s, a)) && LossBounded(Do(s, a))
  {
    hide LineAfter, ReplyTo, DataIn, Taken, Failures;
    match a {
      case SendOk =>
        TakenSnoc(s.out, Outgoing(s.tcp.m, true));
        FailuresSnoc(s.out, Outgoing(s.tcp.m, true));
      case SendFails =>
        TakenSnoc(s.out, Outgoing(s.tcp.m, false));
        FailuresSnoc(s.out, Outgoing(s.tcp.m, false));
      case Pop =>
        assert s.toTcp == [s.toTcp[0]] + s.toTcp[1..];
        assert Taken(s.out) + [] == Taken(s.out);
        Associates(Taken(s.out), [s.toTcp[0]], s.toTcp[1..]);
      case _ =>
    }
  }

  lemma DataOfOne(m: Msg)
    ensures DataOf([m]) == DataIn(m) && DataOf([]) == []
  {
    DataOfSnoc([], m);
    assert [] + [m] == [m];
  }

  lemma UartInOrderStep(s: Fw, a: Act)
    requires UartInOrder(s) && Can(s, a)
    ensures UartInOrder(Do(s, a))
  {
    hide LineAfter, DataOf;
    match a {
      case UartChunk(bytes) =>
        DataOfOne(Msg(Frame(1, bytes), 0));
        assert s.uartIn == DataOf(s.pushed) + [] == DataOf(s.pushed);
      case RxPush =>
        DataOfOne(s.rx.m);
        DataOfSnoc(s.pushed, s.rx.m);
        assert DataOf(s.pushed + [s.rx.m]) + [] == DataOf(s.pushed + [s.rx.m]);
      case TxPush =>
        DataOfSnoc(s.pushed, s.tx.m);
        assert DataOf(s.pushed) + [] == DataOf(s.pushed);
      case _ =>
    }
  }

  lemma RepliesInOrderStep(s: Fw, a: Act)
    requires RepliesInOrder(s) && Can(s, a)
    ensures RepliesInOrder(Do(s, a))
  {
    hide LineAfter, DataIn, RepliesTo, RepliesIn;
    match a {
      case RxPush => RepliesInSnoc(s.pushed, s.rx.m);
      case TxHandle => RepliesToSnoc(s.resetEnabled, s.handled, s.tx.m);
      case TxPush => RepliesInSnoc(s.pushed, s.tx.m);
      case _ =>
    }
  }

  lemma AllProducedStep(s: Fw, a: Act)
    requires AllProduced(s) && Can(s, a)
    ensures AllProduced(Do(s, a))
  {
    hide LineAfter, DataIn;
  }

  lemma ConservationStep(s: Fw, a: Act)
    requires ConservationInv(s) && Can(s, a)
    ensures ConservationInv(Do(s, a))
  {
    hide InboundConserved, OutboundConserved, LossBounded, UartInOrder, RepliesInOrder, AllProduced, EffectsOfHandled;
    InboundStep(s, a);
    OutboundStep(s, a);
    EffectsStep(s, a);
    UartInOrderStep(s, a);
    RepliesInOrderStep(s, a);
    AllProducedStep(s, a);
  }

  // ---------------------------------------------------------------- over whole runs

  predicate Inv(s: Fw) {
    NotificationInv(s) && ConservationInv(s) && RepliesNeedControl(s)
  }

  lemma InvStep(s: Fw, a: Act)
    requires Inv(s) && Can(s, a)
    ensures Inv(Do(s, a))
  {
    hide NotificationInv, ConservationInv, RepliesNeedControl;
    NotificationStep(s, a);
    ConservationStep(s, a);
    RepliesNeedControlStep(s, a);
  }

  lemma {:induction false} InvOverRuns(r: bool, f: bool, acts: seq<Act>)
    requires Exec(Init(r, f), acts).Some?
    ensures Inv(Exec(Init(r, f), acts).value)
    decreases |acts|
  {
    if acts != [] {
      InvOverRuns(r, f, acts[..|acts| - 1]);
      InvStep(Exec(Init(r, f), acts[..|acts| - 1]).value, acts[|acts| - 1]);
    }
  }

  lemma ReachableInv(s: Fw)
    requires Reachable(s)
    ensures Inv(s)
  {
    var r, f, acts :| Exec(Init(r, f), acts) == Some(s);
    InvOverRuns(r, f, acts);
  }

  /** Backpressure never wedges the way to the client, whatever sends failed before. */
  lemma FullQueueIsAlwaysNoticed(s: Fw)
    requires Reachable(s)
    ensures |s.toUart| <= 16 && |s.toTcp| <= 128
    ensures |s.toTcp| == 128 ==> s.efd > 0 || s.rx.RxPushed? || s.tx.TxReplied? || s.tcp.Draining?
  {
    ReachableInv(s);
  }

  /** No lost wakeup while no send has failed: `select` will return, or is about to. */
  lemma NoLostWakeup(s: Fw)
    requires Reachable(s) && NoSendFailed(s) && s.tcp.Selecting? && s.toTcp != []
    ensures Can(s, SelectReturns(false)) || Can(s, RxNotify) || Can(s, TxNotify)
  {
    hide Reachable, ConservationInv, RepliesNeedControl;
    ReachableInv(s);
  }

  /** Without control messages a blocked `tcp_task` always has `uart_tx_task` to wait for. */
  lemma NoControlNoCircularWait(s: Fw)
    requires Reachable(s) && (forall m <- s.received :: !IsControl(m))
    requires TcpStuckPushing(s)
    ensures !TxStuck(s)
  {
    ReachableInv(s);
    StuckTogetherIffCircularWait(s);
    forall m <- s.handled
      ensures !IsControl(m)
    {
      assert m in s.received;
    }
  }

  lemma HandledFirst(s: Fw)
    requires InboundConserved(s)
    ensures s.handled <= s.received
  {
    hide TxHand, TcpHand;
    assert s.received == s.handled + (TxHand(s) + s.toUart + TcpHand(s));
  }

  /** What any run conserves, in both directions. */
  lemma NothingIsLostButFailedSends(s: Fw)
    requires Reachable(s)
    ensures s.received == s.handled + TxHand(s) + s.toUart + TcpHand(s)
    ensures s.uartOut == DataOf(s.handled) && s.line == LineOf(s.allowFlow, s.handled)
    ensures s.pushed == Taken(s.out) + SendHand(s) + s.toTcp
    ensures s.uartIn == DataOf(s.pushed) + DataOf(RxHand(s))
    ensures RepliesTo(s.resetEnabled, s.handled) == RepliesIn(s.pushed) + ReplyHand(s)
    ensures forall m <- s.pushed :: Produced(m) && 1 <= |m.frame.body| <= 255
    ensures Failures(s.out) <= s.sessions
  {
    ReachableInv(s);
  }
}
