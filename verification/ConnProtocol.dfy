/**
  The daemon's connection task (daemon/src/connection.rs) as an event-driven machine.

  Each event is one branch of a `select!` becoming ready, together with how the calls made in that
  branch turn out. `React` gives the next state and what the task did, in order; the whole of what
  it did is its history, and the laws below are about histories of arbitrary runs.
 */
module ConnProtocol {
  import opened Bytes
  import opened DeviceCodec
  import opened Termios

  const INITIAL_RECONNECT_BACKOFF: nat := 100
  const MAX_RECONNECT_BACKOFF: nat := 5000

  datatype Reply = Answer(res: ControlResponse) | Unavailable | Status(up: bool)

  datatype ConnState =
    | Connected
    | Reconnecting(backoff: nat, pending: Option<DeviceMessage>)
    | Resyncing(message: DeviceMessage)
    | ShuttingDown

  /** How a `send` turns out: on failure the first `cut` bytes of the frame reached the wire. */
  datatype Send = Ok | Fails(cut: nat)

  /** How writing to the pseudo-terminal turns out: on failure `cut` bytes got through. */
  datatype Write = Written | Broken(cut: nat)

  datatype Event =
    | Shutdown(cut: nat)
    | PtyChange(change: Change, send: Send)
    | PtyData(bytes: seq<byte>, send: Send)
    | PtyControl(ctrl: bv8)
    | PtyError
    | Incoming(m: DeviceMessage, write: Write)
    | LinkLost
    | HwRequest(id: nat, req: ControlRequest, send: Send)
    | StatusRequest(id: nat)
    | RequestsClosed(cut: nat)
    | SleepElapsed(connects: bool)
    | ResyncDone(send: Send)
    | Finish

  /** Something the task did. `tag` is the asker of a control request and 0 for anything else. */
  datatype Action =
    | ReadFromPty(m: DeviceMessage)
    | Accepted(m: DeviceMessage, tag: nat)
    | Torn(m: DeviceMessage, tag: nat, cut: nat)
    | Opened
    | Dropped
    | Decoded(m: DeviceMessage)
    | WroteToPty(bytes: seq<byte>)
    | Asked(id: nat)
    | Answered(id: nat, reply: Reply)
    | Unsolicited(res: ControlResponse)
    | FoundNoLink
    | FoundLink
    | SentClosed

  /** `linked`: the bridge holds a framed stream; `waiting`: who awaits the device's answer. */
  datatype Task = Task(state: ConnState, linked: bool, waiting: Option<nat>, done: bool)

  const Fresh := Task(Reconnecting(INITIAL_RECONNECT_BACKOFF, None), false, None, false)

  function NextBackoff(backoff: nat): nat {
    if backoff * 2 < MAX_RECONNECT_BACKOFF then backoff * 2 else MAX_RECONNECT_BACKOFF
  }

  predicate CanCut(m: DeviceMessage, send: Send) {
    send.Fails? ==> send.cut < |Encode(m)|
  }

  /** Which events can come in a state. A pseudo-terminal read fills at most the 255-byte buffer. */
  predicate Can(t: Task, e: Event) {
    !t.done &&
    match t.state
    case Connected => (
      match e
      case Shutdown(_) => true
      case PtyChange(c, send) => Legal(c) && CanCut(ConfigOf(c), send)
      case PtyData(bytes, send) => 1 <= |bytes| <= MAX_MESSAGE_LEN && CanCut(FromBytes(bytes), send)
      case PtyControl(_) => true
      case PtyError => true
      case Incoming(m, write) =>
        t.linked && ZeroPadded(m) && (m.Data? && write.Broken? ==> write.cut < m.size)
      case LinkLost => true
      case HwRequest(_, req, send) => CanCut(ControlReq(req), send)
      case StatusRequest(_) => true
      case RequestsClosed(_) => true
      case _ => false)
    case Reconnecting(_, _) =>
      e.Shutdown? || e.HwRequest? || e.StatusRequest? || e.RequestsClosed? || e.SleepElapsed?
    case Resyncing(m) => (
      match e
      case Shutdown(cut) => cut < |Encode(m)|
      case HwRequest(_, _, _) => true
      case StatusRequest(_) => true
      case RequestsClosed(cut) => cut < |Encode(m)|
      case ResyncDone(send) => CanCut(m, send)
      case _ => false)
    case ShuttingDown => e.Finish?
  }

  /** `TcpBridge::send`: whether it worked, whether the link is still held, and what was done. */
  function TrySend(linked: bool, m: DeviceMessage, tag: nat, send: Send): (bool, bool, seq<Action>) {
    if !linked then (false, false, [FoundNoLink])
    else match send
         case Ok => (true, true, [Accepted(m, tag)])
         case Fails(cut) => (false, false, [Torn(m, tag, cut), Dropped])
  }

  /** `fail_pending_ctl` */
  function FailWaiting(waiting: Option<nat>): seq<Action> {
    match waiting
    case None => []
    case Some(id) => [Answered(id, Unavailable)]
  }

  /** A message read from the pseudo-terminal while connected. */
  function Forward(t: Task, m: DeviceMessage, send: Send): (Task, seq<Action>) {
    var (ok, linked, did) := TrySend(t.linked, m, 0, send);
    if ok then (t, [ReadFromPty(m)] + did)
    else (Task(Reconnecting(INITIAL_RECONNECT_BACKOFF, Some(m)), linked, None, false),
          [ReadFromPty(m)] + did + FailWaiting(t.waiting))
  }

  /** A message decoded from the device while connected. */
  function Deliver(t: Task, m: DeviceMessage, write: Write): (Task, seq<Action>)
    requires m.Data? && write.Broken? ==> write.cut < m.size
  {
    match m
    case Data(size, body) =>
      (match write
       case Written => (t, [Decoded(m), WroteToPty(body[..size])])
       case Broken(cut) => (t.(state := ShuttingDown), [Decoded(m), WroteToPty(body[..cut])]))
    case ControlRes(res) =>
      (match t.waiting
       case Some(id) => (t.(waiting := None), [Decoded(m), Answered(id, Answer(res))])
       case None => (t, [Decoded(m), Unsolicited(res)]))
    case _ => (t, [Decoded(m)])
  }

  function ReactConnected(t: Task, e: Event): (Task, seq<Action>)
    requires Can(t, e) && t.state.Connected?
  {
    match e
    case Shutdown(_) => (t.(state := ShuttingDown), [])
    case PtyChange(c, send) => Forward(t, ConfigOf(c), send)
    case PtyData(bytes, send) => Forward(t, FromBytes(bytes), send)
    case PtyError => (t.(state := ShuttingDown), [])
    case Incoming(m, write) => Deliver(t, m, write)
    case LinkLost =>
      (Task(Reconnecting(INITIAL_RECONNECT_BACKOFF, None), false, None, false),
       (if t.linked then [Dropped] else [FoundNoLink]) + FailWaiting(t.waiting))
    case HwRequest(id, req, send) =>
      if t.waiting.Some? then (t, [Asked(id), Answered(id, Unavailable)])
      else
        var (ok, linked, did) := TrySend(t.linked, ControlReq(req), id, send);
        if ok then (t.(waiting := Some(id)), [Asked(id)] + did)
        else (Task(Reconnecting(INITIAL_RECONNECT_BACKOFF, None), linked, t.waiting, false),
              [Asked(id)] + did + [Answered(id, Unavailable)])
    case StatusRequest(id) => (t, [Asked(id), Answered(id, Status(true))])
    case RequestsClosed(_) => (t.(state := ShuttingDown), [])
    case _ => (t, [])
  }

  /** Requests while there is no usable link are refused on the spot. */
  function ReactOffline(t: Task, e: Event): (Task, seq<Action>) {
    match e
    case HwRequest(id, _, _) => (t, [Asked(id), Answered(id, Unavailable)])
    case StatusRequest(id) => (t, [Asked(id), Answered(id, Status(false))])
    case _ => (t.(state := ShuttingDown), [])
  }

  function ReactReconnecting(t: Task, e: Event): (Task, seq<Action>)
    requires t.state.Reconnecting?
  {
    if !e.SleepElapsed? then ReactOffline(t, e)
    else if t.linked || e.connects then
      (t.(state := if t.state.pending.Some? then Resyncing(t.state.pending.value) else Connected, linked := true),
       if t.linked then [FoundLink] else [Opened])
    else (t.(state := Reconnecting(NextBackoff(t.state.backoff), t.state.pending)), [])
  }

  /** A resync that is abandoned leaves the beginning of its frame on the wire. */
  function ReactResyncing(t: Task, e: Event): (Task, seq<Action>)
    requires t.state.Resyncing?
  {
    var m := t.state.message;
    match e
    case ResyncDone(send) =>
      var (ok, linked, did) := TrySend(t.linked, m, 0, send);
      if ok then (t.(state := Connected), did)
      else (t.(state := Reconnecting(INITIAL_RECONNECT_BACKOFF, Some(m)), linked := linked), did)
    case Shutdown(cut) => (t.(state := ShuttingDown), [Torn(m, 0, cut)])
    case RequestsClosed(cut) => (t.(state := ShuttingDown), [Torn(m, 0, cut)])
    case _ => ReactOffline(t, e)
  }

  function React(t: Task, e: Event): (Task, seq<Action>)
    requires Can(t, e)
  {
    match t.state
    case Connected => ReactConnected(t, e)
    case Reconnecting(_, _) => ReactReconnecting(t, e)
    case Resyncing(_) => ReactResyncing(t, e)
    case ShuttingDown => (t.(waiting := None, done := true), FailWaiting(t.waiting) + [SentClosed])
  }

  /** A task and its history. */
  datatype Log = Log(t: Task, h: seq<Action>)

  function Advance(l: Log, e: Event): Log
    requires Can(l.t, e)
  {
    Log(React(l.t, e).0, l.h + React(l.t, e).1)
  }

  function Exec(es: seq<Event>): Option<Log>
    decreases |es|
  {
    if es == [] then Some(Log(Fresh, []))
    else
      match Exec(es[..|es| - 1])
      case None => None
      case Some(l) => if Can(l.t, es[|es| - 1]) then Some(Advance(l, es[|es| - 1])) else None
  }

  ghost predicate Reachable(l: Log) {
    exists es :: Exec(es) == Some(l)
  }

  // ---------------------------------------------------------------- views of a history

  /** The parts of a history that `view` picks out, in order. */
  function Project<T>(h: seq<Action>, view: Action -> seq<T>): seq<T> {
    if h == [] then [] else view(h[0]) + Project(h[1..], view)
  }

  lemma {:induction false} ProjectAppend<T>(a: seq<Action>, b: seq<Action>, view: Action -> seq<T>)
    ensures Project(a + b, view) == Project(a, view) + Project(b, view)
  {
    if a == [] {
      assert a + b == b;
      assert [] + Project(b, view) == Project(b, view);
    } else {
      ProjectAppend(a[1..], b, view);
      assert (a + b)[1..] == a[1..] + b;
      Associates(view(a[0]), Project(a[1..], view), Project(b, view));
    }
  }

  lemma ProjectOne<T>(a: Action, view: Action -> seq<T>)
    ensures Project([a], view) == view(a)
  {
    assert Project([a][1..], view) == [];
    assert view(a) + [] == view(a);
  }

  /** One event leaves at most four actions, so its views can be written out. */
  lemma ProjectShort<T>(h: seq<Action>, view: Action -> seq<T>)
    requires |h| <= 4
    ensures |h| == 0 ==> Project(h, view) == []
    ensures |h| == 1 ==> Project(h, view) == view(h[0])
    ensures |h| == 2 ==> Project(h, view) == view(h[0]) + view(h[1])
    ensures |h| == 3 ==> Project(h, view) == view(h[0]) + view(h[1]) + view(h[2])
    ensures |h| == 4 ==> Project(h, view) == (view(h[0]) + view(h[1])) + (view(h[2]) + view(h[3]))
  {
    hide Project;
    if |h| == 0 {
      ProjectNone(view);
      assert h == [];
    } else if |h| == 1 {
      ProjectOne(h[0], view);
      assert h == [h[0]];
    } else if |h| == 2 {
      ProjectTwo(h[0], h[1], view);
      assert h == [h[0], h[1]];
    } else if |h| == 3 {
      ProjectTwo(h[0], h[1], view);
      ProjectAppend([h[0], h[1]], [h[2]], view);
      ProjectOne(h[2], view);
      assert h == [h[0], h[1]] + [h[2]];
    } else {
      ProjectTwo(h[0], h[1], view);
      ProjectTwo(h[2], h[3], view);
      ProjectAppend([h[0], h[1]], [h[2], h[3]], view);
      assert h == [h[0], h[1]] + [h[2], h[3]];
    }
  }

  lemma {:induction false} ProjectQuiet<T>(h: seq<Action>, view: Action -> seq<T>)
    requires forall a <- h :: view(a) == []
    ensures Project(h, view) == []
  {
    if h != [] {
      ProjectQuiet(h[1..], view);
    }
  }

  lemma ProjectNone<T>(view: Action -> seq<T>)
    ensures Project([], view) == []
  {
  }

  lemma ProjectTwo<T>(a: Action, b: Action, view: Action -> seq<T>)
    ensures Project([a, b], view) == view(a) + view(b)
  {
    ProjectAppend([a], [b], view);
    ProjectOne(a, view);
    ProjectOne(b, view);
    assert [a, b] == [a] + [b];
  }

  /** Messages made of what was read from the pseudo-terminal. */
  function ReadView(a: Action): seq<DeviceMessage> { if a.ReadFromPty? then [a.m] else [] }

  /** Such messages that the transport took. */
  function AcceptedView(a: Action): seq<DeviceMessage> {
    if a.Accepted? && !a.m.ControlReq? then [a.m] else []
  }

  function AskedView(a: Action): seq<nat> { if a.Asked? then [a.id] else [] }
  function AnsweredView(a: Action): seq<nat> { if a.Answered? then [a.id] else [] }

  /** The payload bytes of the data messages decoded, and the bytes written to the pseudo-terminal. */
  function PayloadView(a: Action): seq<byte> { if a.Decoded? && a.m.Data? then a.m.body[..a.m.size] else [] }
  function WrittenView(a: Action): seq<byte> { if a.WroteToPty? then a.bytes else [] }

  // ---------------------------------------------------------------- the link

  /** The link is held exactly when the state relies on it. */
  predicate LinkMatchesState(t: Task) {
    && (t.state.Connected? || t.state.Resyncing? ==> t.linked)
    && (t.state.Reconnecting? ==> !t.linked)
    && (t.state.Reconnecting? || t.state.Resyncing? ==> t.waiting == None)
    && (t.done ==> t.state.ShuttingDown? && t.waiting == None)
    && (forall m <- Retained(t.state) :: !m.ControlReq?)
  }

  /** The defensive branches "not connected" and "already connected" are never taken. */
  predicate DefensiveBranchesUnused(h: seq<Action>) {
    forall a <- h :: !a.FoundNoLink? && !a.FoundLink?
  }

  lemma LinkStep(l: Log, e: Event)
    requires Can(l.t, e) && LinkMatchesState(l.t) && DefensiveBranchesUnused(l.h)
    ensures LinkMatchesState(Advance(l, e).t) && DefensiveBranchesUnused(Advance(l, e).h)
  {
    hide Encode, FromBytes, NextBackoff, ConfigOf;
    forall a <- React(l.t, e).1
      ensures !a.FoundNoLink? && !a.FoundLink?
    {
    }
  }

  // ---------------------------------------------------------------- outbound conservation

  function Retained(s: ConnState): seq<DeviceMessage> {
    match s
    case Reconnecting(_, Some(m)) => [m]
    case Resyncing(m) => [m]
    case _ => []
  }

  /** Everything read is accepted or retained; at shutdown at most the retained message is missing. */
  predicate OutboundConserved(l: Log) {
    var read, accepted := Project(l.h, ReadView), Project(l.h, AcceptedView);
    if l.t.state.ShuttingDown? then accepted <= read && |read| <= |accepted| + 1
    else read == accepted + Retained(l.t.state)
  }

  /** What one event adds to the two logs. */
  predicate OutboundDelta(t: Task, u: Task, did: seq<Action>) {
    var read, accepted := Project(did, ReadView), Project(did, AcceptedView);
    if u.state.ShuttingDown? then read == [] && accepted == []
    else Retained(t.state) + read == accepted + Retained(u.state)
  }

  lemma ForwardDelta(t: Task, m: DeviceMessage, send: Send)
    requires t.linked && t.state.Connected? && !m.ControlReq?
    ensures OutboundDelta(t, Forward(t, m, send).0, Forward(t, m, send).1)
  {
    hide Encode, Project;
    var did := Forward(t, m, send).1;
    ProjectShort(did, ReadView);
    ProjectShort(did, AcceptedView);
  }

  lemma ResyncDelta(t: Task, send: Send)
    requires t.linked && t.state.Resyncing? && Can(t, ResyncDone(send)) && !t.state.message.ControlReq?
    ensures OutboundDelta(t, React(t, ResyncDone(send)).0, React(t, ResyncDone(send)).1)
  {
    hide Encode, Project;
    var did := React(t, ResyncDone(send)).1;
    ProjectShort(did, ReadView);
    ProjectShort(did, AcceptedView);
  }

  lemma QuietDelta(t: Task, u: Task, did: seq<Action>)
    requires forall a <- did :: ReadView(a) == [] && AcceptedView(a) == []
    requires u.state.ShuttingDown? || Retained(u.state) == Retained(t.state)
    ensures OutboundDelta(t, u, did)
  {
    hide Project;
    ProjectQuiet(did, ReadView);
    ProjectQuiet(did, AcceptedView);
    assert Retained(t.state) + [] == [] + Retained(t.state);
  }

  /** Every other event leaves the two logs alone and keeps what is retained, or shuts down. */
  lemma OtherDelta(t: Task, e: Event)
    requires Can(t, e) && LinkMatchesState(t) && !e.PtyChange? && !e.PtyData? && !e.ResyncDone?
    ensures OutboundDelta(t, React(t, e).0, React(t, e).1)
  {
    hide Encode, Forward, NextBackoff, OutboundDelta;
    QuietDelta(t, React(t, e).0, React(t, e).1);
  }

  lemma ReactDelta(t: Task, e: Event)
    requires Can(t, e) && LinkMatchesState(t)
    ensures OutboundDelta(t, React(t, e).0, React(t, e).1)
  {
    hide OutboundDelta, Encode, FromBytes, ConfigOf, NextBackoff, Forward, ReactResyncing, ReactReconnecting;
    match e {
      case PtyChange(c, send) => ForwardDelta(t, ConfigOf(c), send);
      case PtyData(bytes, send) => ForwardDelta(t, FromBytes(bytes), send);
      case ResyncDone(send) => ResyncDelta(t, send);
      case _ => OtherDelta(t, e);
    }
  }

  lemma OutboundStep(l: Log, e: Event)
    requires Can(l.t, e) && LinkMatchesState(l.t) && OutboundConserved(l)
    ensures OutboundConserved(Advance(l, e))
  {
    hide React, Project, Can, LinkMatchesState;
    var did := React(l.t, e).1;
    ReactDelta(l.t, e);
    ProjectAppend(l.h, did, ReadView);
    ProjectAppend(l.h, did, AcceptedView);
    ShutdownIsFinal(l.t, e);
    var read, accepted := Project(l.h, ReadView), Project(l.h, AcceptedView);
    var r, a := Project(did, ReadView), Project(did, AcceptedView);
    if !React(l.t, e).0.state.ShuttingDown? {
      Associates(accepted, Retained(l.t.state), r);
      Associates(accepted, a, Retained(React(l.t, e).0.state));
    }
  }

  lemma ShutdownIsFinal(t: Task, e: Event)
    requires Can(t, e)
    ensures t.state.ShuttingDown? ==> React(t, e).0.state.ShuttingDown?
  {
  }

  // ---------------------------------------------------------------- requests and answers

  function Waiting(t: Task): multiset<nat> {
    match t.waiting
    case None => multiset{}
    case Some(id) => multiset{id}
  }

  /** Every asker has been answered as often as it asked, but for the one that waits. */
  predicate AnswersBalance(l: Log) {
    multiset(Project(l.h, AskedView)) == multiset(Project(l.h, AnsweredView)) + Waiting(l.t)
  }

  /** One event asks, answers, does both for one asker, or neither. */
  predicate AnswersDelta(t: Task, u: Task, did: seq<Action>) {
    var asked, answered := Project(did, AskedView), Project(did, AnsweredView);
    || (asked == answered == [] && u.waiting == t.waiting)
    || (|asked| == 1 && answered == asked && u.waiting == t.waiting)
    || (|asked| == 1 && answered == [] && t.waiting == None && u.waiting == Some(asked[0]))
    || (|answered| == 1 && asked == [] && t.waiting == Some(answered[0]) && u.waiting == None)
  }

  lemma RequestDelta(t: Task, e: Event)
    requires Can(t, e) && LinkMatchesState(t) && (e.HwRequest? || e.StatusRequest?)
    ensures AnswersDelta(t, React(t, e).0, React(t, e).1)
  {
    hide Encode, Forward, Deliver, Project;
    var did := React(t, e).1;
    ProjectShort(did, AskedView);
    ProjectShort(did, AnsweredView);
  }

  lemma NoRequestDelta(t: Task, e: Event)
    requires Can(t, e) && LinkMatchesState(t) && !e.HwRequest? && !e.StatusRequest?
    ensures AnswersDelta(t, React(t, e).0, React(t, e).1)
  {
    hide Encode, FromBytes, ConfigOf, NextBackoff, Project;
    var did := React(t, e).1;
    assert forall a <- did :: AskedView(a) == [];
    ProjectQuiet(did, AskedView);
    ProjectShort(did, AnsweredView);
  }

  lemma DeltaBalances(t: Task, u: Task, did: seq<Action>)
    requires AnswersDelta(t, u, did)
    ensures Waiting(t) + multiset(Project(did, AskedView)) == multiset(Project(did, AnsweredView)) + Waiting(u)
  {
    hide Project;
    var asked, answered := Project(did, AskedView), Project(did, AnsweredView);
    if |asked| == 1 { assert asked == [asked[0]]; }
    if |answered| == 1 { assert answered == [answered[0]]; }
  }

  lemma BalanceAdds(a: multiset<nat>, b: multiset<nat>, w: multiset<nat>,
                    da: multiset<nat>, db: multiset<nat>, v: multiset<nat>)
    requires a == b + w && w + da == db + v
    ensures a + da == (b + db) + v
  {
    assert a + da == b + (w + da);
  }

  lemma AnswersStep(l: Log, e: Event)
    requires Can(l.t, e) && LinkMatchesState(l.t) && AnswersBalance(l)
    ensures AnswersBalance(Advance(l, e))
  {
    hide React, Can, LinkMatchesState, Project, AnswersDelta, Waiting;
    var (u, did) := React(l.t, e);
    if e.HwRequest? || e.StatusRequest? { RequestDelta(l.t, e); } else { NoRequestDelta(l.t, e); }
    DeltaBalances(l.t, u, did);
    ProjectAppend(l.h, did, AskedView);
    ProjectAppend(l.h, did, AnsweredView);
    BalanceAdds(multiset(Project(l.h, AskedView)), multiset(Project(l.h, AnsweredView)), Waiting(l.t),
                multiset(Project(did, AskedView)), multiset(Project(did, AnsweredView)), Waiting(u));
  }

  /** The link changed hands, or a control response arrived. */
  predicate EndsExchange(a: Action) {
    a.Opened? || a.Dropped? || (a.Decoded? && a.m.ControlRes?)
  }

  /** From position `i` on, `id`'s request was sent and neither answered nor cut off. */
  predicate SentAndOpen(h: seq<Action>, id: nat, i: nat) {
    && i < |h| && h[i].Accepted? && h[i].m.ControlReq? && h[i].tag == id
    && forall k :: i < k < |h| ==> !EndsExchange(h[k])
  }

  ghost predicate WasSent(h: seq<Action>, id: nat) {
    exists i :: SentAndOpen(h, id, i)
  }

  /**
    An answer from the device given at `j` comes right after a control response with that value,
    the first one since the asker's request was sent, and in the same session.
   */
  ghost predicate AnswerIsEarned(h: seq<Action>, j: nat)
    requires j < |h|
  {
    h[j].Answered? && h[j].reply.Answer? ==>
      && j > 0 && h[j - 1] == Decoded(ControlRes(h[j].reply.res))
      && WasSent(h[..j - 1], h[j].id)
  }

  ghost predicate AnswersAreEarned(l: Log) {
    && (l.t.waiting.Some? ==> WasSent(l.h, l.t.waiting.value))
    && (forall j :: 0 <= j < |l.h| ==> AnswerIsEarned(l.h, j))
  }

  lemma SentStaysOpen(h: seq<Action>, did: seq<Action>, id: nat, i: nat)
    requires SentAndOpen(h, id, i) && (forall a <- did :: !EndsExchange(a))
    ensures SentAndOpen(h + did, id, i)
  {
  }

  lemma EarnedStaysEarned(h: seq<Action>, did: seq<Action>, j: nat)
    requires j < |h| && AnswerIsEarned(h, j)
    ensures AnswerIsEarned(h + did, j)
  {
    if h[j].Answered? && h[j].reply.Answer? {
      assert (h + did)[..j - 1] == h[..j - 1];
    }
  }

  /** What one event does to the exchange with the device. */
  lemma ExchangeDelta(t: Task, e: Event)
    requires Can(t, e) && LinkMatchesState(t)
    ensures var (u, did) := React(t, e);
            // a device answer is only ever given to the one that waits, right after decoding it
            && (forall j :: 0 <= j < |did| && did[j].Answered? && did[j].reply.Answer? ==>
                 j == 1 && t.waiting == Some(did[1].id) && did[0] == Decoded(ControlRes(did[1].reply.res)))
            && (u.waiting.Some? ==>
                 || (u.waiting == t.waiting && forall a <- did :: !EndsExchange(a))
                 || (|did| == 2 && exists q :: did[1] == Accepted(ControlReq(q), u.waiting.value)))
  {
    hide Encode, FromBytes, ConfigOf, NextBackoff;
  }

  lemma ExchangeStep(l: Log, e: Event)
    requires Can(l.t, e) && LinkMatchesState(l.t) && AnswersAreEarned(l)
    ensures AnswersAreEarned(Advance(l, e))
  {
    hide React, Can;
    var (u, did) := React(l.t, e);
    var h := l.h + did;
    ExchangeDelta(l.t, e);
    forall j | 0 <= j < |h|
      ensures AnswerIsEarned(h, j)
    {
      if j < |l.h| {
        EarnedStaysEarned(l.h, did, j);
      } else if h[j].Answered? && h[j].reply.Answer? {
        assert h[j] == did[j - |l.h|] && h[j - 1] == did[0];
        assert h[..j - 1] == l.h;
      }
    }
    if u.waiting.Some? {
      if u.waiting == l.t.waiting && forall a <- did :: !EndsExchange(a) {
        var i :| SentAndOpen(l.h, u.waiting.value, i);
        SentStaysOpen(l.h, did, u.waiting.value, i);
      } else {
        assert h[|l.h| + 1] == did[1];
        assert SentAndOpen(h, u.waiting.value, |l.h| + 1);
      }
    }
  }

  // ---------------------------------------------------------------- bytes to the pseudo-terminal

  /** The pseudo-terminal gets the payloads decoded, in order; only shutting down cuts one short. */
  predicate WritesFollowPayloads(l: Log) {
    var payload, written := Project(l.h, PayloadView), Project(l.h, WrittenView);
    if l.t.state.ShuttingDown? then written <= payload else written == payload
  }

  predicate WritesDelta(t: Task, u: Task, did: seq<Action>) {
    var payload, written := Project(did, PayloadView), Project(did, WrittenView);
    && (t.state.ShuttingDown? ==> payload == [] && written == [])
    && written <= payload
    && (!u.state.ShuttingDown? ==> written == payload)
  }

  lemma DeliverWrites(t: Task, m: DeviceMessage, write: Write)
    requires t.state.Connected? && (m.Data? && write.Broken? ==> write.cut < m.size)
    ensures WritesDelta(t, Deliver(t, m, write).0, Deliver(t, m, write).1)
  {
    hide Project;
    var did := Deliver(t, m, write).1;
    ProjectShort(did, PayloadView);
    ProjectShort(did, WrittenView);
  }

  lemma QuietWrites(t: Task, u: Task, did: seq<Action>)
    requires forall a <- did :: PayloadView(a) == [] && WrittenView(a) == []
    ensures WritesDelta(t, u, did)
  {
    hide Project;
    ProjectQuiet(did, PayloadView);
    ProjectQuiet(did, WrittenView);
  }

  lemma ReactWrites(t: Task, e: Event)
    requires Can(t, e)
    ensures WritesDelta(t, React(t, e).0, React(t, e).1)
  {
    hide Encode, FromBytes, ConfigOf, NextBackoff, Project, Deliver;
    if e.Incoming? {
      hide WritesDelta;
      DeliverWrites(t, e.m, e.write);
    } else {
      hide WritesDelta;
      QuietWrites(t, React(t, e).0, React(t, e).1);
    }
  }

  lemma WritesStep(l: Log, e: Event)
    requires Can(l.t, e) && WritesFollowPayloads(l)
    ensures WritesFollowPayloads(Advance(l, e))
  {
    hide React, Can, Project;
    var did := React(l.t, e).1;
    ReactWrites(l.t, e);
    ShutdownIsFinal(l.t, e);
    ProjectAppend(l.h, did, PayloadView);
    ProjectAppend(l.h, did, WrittenView);
  }

  // ---------------------------------------------------------------- over whole runs

  ghost predicate Inv(l: Log) {
    && LinkMatchesState(l.t) && DefensiveBranchesUnused(l.h)
    && OutboundConserved(l) && AnswersBalance(l) && AnswersAreEarned(l) && WritesFollowPayloads(l)
  }

  lemma InvStep(l: Log, e: Event)
    requires Inv(l) && Can(l.t, e)
    ensures Inv(Advance(l, e))
  {
    hide LinkMatchesState, DefensiveBranchesUnused, OutboundConserved, AnswersBalance, AnswersAreEarned,
      WritesFollowPayloads, React, Can;
    LinkStep(l, e);
    OutboundStep(l, e);
    AnswersStep(l, e);
    ExchangeStep(l, e);
    WritesStep(l, e);
  }

  lemma {:induction false} InvOverRuns(es: seq<Event>)
    requires Exec(es).Some?
    ensures Inv(Exec(es).value)
    decreases |es|
  {
    if es != [] {
      InvOverRuns(es[..|es| - 1]);
      InvStep(Exec(es[..|es| - 1]).value, es[|es| - 1]);
    }
  }

  lemma ReachableInv(l: Log)
    requires Reachable(l)
    ensures Inv(l)
  {
    var es :| Exec(es) == Some(l);
    InvOverRuns(es);
  }

  /** Outbound conservation over any run. */
  lemma NothingReadIsLost(l: Log)
    requires Reachable(l)
    ensures var read, accepted := Project(l.h, ReadView), Project(l.h, AcceptedView);
            if l.t.state.ShuttingDown? then accepted <= read && |read| <= |accepted| + 1
            else read == accepted + Retained(l.t.state)
  {
    ReachableInv(l);
  }

  /** Going down loses what was retained at that moment, and nothing else. */
  lemma ShutdownLosesTheRetained(l: Log, e: Event)
    requires Reachable(l) && Can(l.t, e) && !l.t.state.ShuttingDown? && React(l.t, e).0.state.ShuttingDown?
    ensures var after := Advance(l, e);
            Project(after.h, ReadView) == Project(after.h, AcceptedView) + Retained(l.t.state)
  {
    hide React, Can, Project;
    ReachableInv(l);
    ReactDelta(l.t, e);
    ProjectAppend(l.h, React(l.t, e).1, ReadView);
    ProjectAppend(l.h, React(l.t, e).1, AcceptedView);
  }

  /** A run to the end answers every request exactly once, and says so to the daemon. */
  lemma EveryRequestIsAnswered(l: Log)
    requires Reachable(l) && l.t.done
    ensures multiset(Project(l.h, AskedView)) == multiset(Project(l.h, AnsweredView))
  {
    ReachableInv(l);
  }

  /** At any moment the only unanswered request is the waiting one, and none waits while offline. */
  lemma OnlyTheWaitingRequestIsOpen(l: Log)
    requires Reachable(l)
    ensures multiset(Project(l.h, AskedView)) == multiset(Project(l.h, AnsweredView)) + Waiting(l.t)
    ensures l.t.state.Reconnecting? || l.t.state.Resyncing? ==> l.t.waiting == None
    ensures forall j :: 0 <= j < |l.h| ==> AnswerIsEarned(l.h, j)
  {
    ReachableInv(l);
  }

  /** The bridge's guards never fire, and what reaches the pseudo-terminal is what was decoded. */
  lemma InboundIsRefined(l: Log)
    requires Reachable(l)
    ensures LinkMatchesState(l.t)
    ensures forall a <- l.h :: !a.FoundNoLink? && !a.FoundLink?
    ensures Project(l.h, WrittenView) <= Project(l.h, PayloadView)
    ensures !l.t.state.ShuttingDown? ==> Project(l.h, WrittenView) == Project(l.h, PayloadView)
  {
    ReachableInv(l);
  }
}
