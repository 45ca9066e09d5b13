/** Each event of the connection task, by what it does to the link and to the messages on it. */
module BridgeLinks {
  import opened Bytes
  import opened DeviceCodec
  import opened Termios
  import opened UartLine
  import opened ConnProtocol
  import opened Bridge
  import F = Firmware

  /** `first`: the message is tried for the first time. */
  datatype LinkEvent =
    | Sends(m: DeviceMessage, tag: nat, first: bool)
    | Tears(m: DeviceMessage, tag: nat, cut: nat, first: bool)
    | Opens
    | Takes(m: DeviceMessage)
    | Idle

  function SendEvent(m: DeviceMessage, tag: nat, send: Send, first: bool): LinkEvent {
    match send
    case Ok => Sends(m, tag, first)
    case Fails(cut) => Tears(m, tag, cut, first)
  }

  function LinkEventOf(t: Task, e: Event): LinkEvent {
    match t.state
    case Connected => (
      match e
      case PtyChange(c, send) => SendEvent(ConfigOf(c), 0, send, true)
      case PtyData(bytes, send) => SendEvent(FromBytes(bytes), 0, send, true)
      case Incoming(m, _) => Takes(m)
      case HwRequest(id, req, send) => if t.waiting.Some? then Idle else SendEvent(ControlReq(req), id, send, true)
      case _ => Idle)
    case Reconnecting(_, _) => if e == SleepElapsed(true) then Opens else Idle
    case Resyncing(m) => (
      match e
      case ResyncDone(send) => SendEvent(m, 0, send, false)
      case Shutdown(cut) => Tears(m, 0, cut, false)
      case RequestsClosed(cut) => Tears(m, 0, cut, false)
      case _ => Idle)
    case ShuttingDown => Idle
  }

  function Attempted(le: LinkEvent): seq<Msg> {
    match le
    case Sends(m, tag, first) => if first then [MsgOf(m, tag)] else []
    case Tears(m, tag, _, first) => if first then [MsgOf(m, tag)] else []
    case _ => []
  }

  function Linked(ss: seq<Session>, le: LinkEvent): seq<Session> {
    match le
    case Sends(m, tag, _) => Effect(ss, Accepted(m, tag))
    case Tears(m, tag, cut, _) => Effect(ss, Torn(m, tag, cut))
    case Opens => Effect(ss, Opened)
    case Takes(m) => Effect(ss, Decoded(m))
    case Idle => ss
  }

  /** No session is touched by what is not a link action. */
  predicate Harmless(a: Action) {
    !a.Opened? && !a.Accepted? && !a.Torn? && !a.Decoded?
  }

  lemma {:induction false} EffectsAppend(ss: seq<Session>, a: seq<Action>, b: seq<Action>)
    ensures Effects(ss, a + b) == Effects(Effects(ss, a), b)
    decreases |a|
  {
    hide Effect;
    if a == [] {
      assert a + b == b;
    } else {
      EffectsAppend(Effect(ss, a[0]), a[1..], b);
      assert (a + b)[1..] == a[1..] + b;
    }
  }

  lemma {:induction false} EffectsHarmless(ss: seq<Session>, did: seq<Action>)
    requires forall a <- did :: Harmless(a)
    ensures Effects(ss, did) == ss
    decreases |did|
  {
    if did != [] {
      assert Harmless(did[0]);
      EffectsHarmless(ss, did[1..]);
    }
  }

  /** With one link action among harmless ones, that action is the whole effect. */
  lemma EffectsOfOne(ss: seq<Session>, did: seq<Action>, k: nat)
    requires k < |did|
    requires forall i :: 0 <= i < |did| && i != k ==> Harmless(did[i])
    ensures Effects(ss, did) == Effect(ss, did[k])
  {
    hide Effect;
    var pre, post := did[..k], did[k + 1..];
    assert did == pre + [did[k]] + post;
    EffectsAppend(ss, pre + [did[k]], post);
    EffectsAppend(ss, pre, [did[k]]);
    EffectsHarmless(ss, pre);
    EffectsHarmless(Effects(ss, pre + [did[k]]), post);
    EffectsSingle(ss, did[k]);
  }

  lemma EffectsSingle(ss: seq<Session>, a: Action)
    ensures Effects(ss, [a]) == Effect(ss, a)
  {
    hide Effect;
    assert [a][1..] == [];
  }

  /** Where the one link action of an event stands in what the event does. */
  function Index(le: LinkEvent): nat {
    match le
    case Sends(_, _, first) => if first then 1 else 0
    case Tears(_, _, _, first) => if first then 1 else 0
    case _ => 0
  }

  predicate Shape(le: LinkEvent, did: seq<Action>) {
    if le.Idle? then forall a <- did :: Harmless(a)
    else
      && Index(le) < |did|
      && (forall i :: 0 <= i < |did| && i != Index(le) ==> Harmless(did[i]))
      && did[Index(le)] ==
         match le
         case Sends(m, tag, _) => Accepted(m, tag)
         case Tears(m, tag, cut, _) => Torn(m, tag, cut)
         case Opens => Opened
         case Takes(m) => Decoded(m)
         case Idle => Opened
  }

  lemma ShapeOfEvents(t: Task, e: Event)
    requires Can(t, e) && LinkMatchesState(t)
    ensures Shape(LinkEventOf(t, e), React(t, e).1)
  {
    hide Encode, FromBytes, ConfigOf, NextBackoff;
  }

  lemma EffectsOfEvents(t: Task, e: Event, ss: seq<Session>)
    requires Can(t, e) && LinkMatchesState(t)
    ensures Effects(ss, React(t, e).1) == Linked(ss, LinkEventOf(t, e))
  {
    hide React, Can, LinkEventOf, Effect;
    var le, did := LinkEventOf(t, e), React(t, e).1;
    ShapeOfEvents(t, e);
    if le.Idle? { EffectsHarmless(ss, did); } else { EffectsOfOne(ss, did, Index(le)); }
  }

  lemma ForwardAttempts(t: Task, m: DeviceMessage, send: Send)
    requires t.linked && !m.ControlReq?
    ensures Project(Forward(t, m, send).1, AttemptView) == [MsgOf(m, 0)]
  {
    hide Encode, Project, MsgOf;
    ProjectShort(Forward(t, m, send).1, AttemptView);
  }

  lemma HwAttempts(t: Task, e: Event)
    requires Can(t, e) && LinkMatchesState(t) && e.HwRequest?
    ensures Project(React(t, e).1, AttemptView) == Attempted(LinkEventOf(t, e))
  {
    hide Encode, FromBytes, ConfigOf, NextBackoff, Project, MsgOf, Forward, Deliver;
    ProjectShort(React(t, e).1, AttemptView);
  }

  lemma AttemptsOfEvents(t: Task, e: Event)
    requires Can(t, e) && LinkMatchesState(t)
    ensures Project(React(t, e).1, AttemptView) == Attempted(LinkEventOf(t, e))
  {
    hide Encode, FromBytes, ConfigOf, NextBackoff, Project, MsgOf, Forward;
    match e {
      case PtyChange(c, send) => ForwardAttempts(t, ConfigOf(c), send);
      case PtyData(bytes, send) => ForwardAttempts(t, FromBytes(bytes), send);
      case HwRequest(_, _, _) => HwAttempts(t, e);
      case _ =>
        assert forall a <- React(t, e).1 :: AttemptView(a) == [];
        ProjectQuiet(React(t, e).1, AttemptView);
    }
  }

  function RetainedMsgs(t: Task): seq<Msg> {
    match t.state
    case Reconnecting(_, Some(m)) => [MsgOf(m, 0)]
    case Resyncing(m) => [MsgOf(m, 0)]
    case _ => []
  }

  /** What the daemon sends: never a response, and only configurations within range. */
  predicate FromDaemon(m: DeviceMessage) {
    && !m.ControlRes?
    && (m.Config? ==> IsFormat(m.dataBits, m.stopBits, m.parity))
  }

  /** What the state change of an event says about the retained message, the link and who waits. */
  predicate StateChange(t: Task, u: Task, le: LinkEvent) {
    match le
    case Sends(m, tag, first) =>
      && t.linked && u.linked && FromDaemon(m)
      && RetainedMsgs(t) == (if first then [] else [MsgOf(m, tag)]) && RetainedMsgs(u) == []
      && (if m.ControlReq? then t.waiting == None && u.waiting == Some(tag) else u.waiting == t.waiting)
      && (Online(t) && Online(u))
    case Tears(m, tag, cut, first) =>
      && t.linked && !(u.linked && Online(u)) && FromDaemon(m) && cut < |Encode(m)|
      && RetainedMsgs(t) == (if first then [] else [MsgOf(m, tag)])
      && (RetainedMsgs(u) == [] || RetainedMsgs(u) == [MsgOf(m, tag)])
    case Opens => !t.linked && u.linked && RetainedMsgs(u) == RetainedMsgs(t) && u.waiting == None && Online(u)
    case Takes(m) =>
      && t.linked && u.linked && RetainedMsgs(t) == [] && RetainedMsgs(u) == [] && t.state.Connected?
      && (Online(u) ==> u.waiting == if m.ControlRes? then None else t.waiting)
    case Idle =>
      && (u.linked ==> t.linked)
      && (RetainedMsgs(u) == RetainedMsgs(t) || RetainedMsgs(u) == [])
      && (u.linked && Online(u) ==> Online(t) && u.waiting == t.waiting)
  }

  lemma StateChangeOfEvents(t: Task, e: Event)
    requires Can(t, e) && LinkMatchesState(t)
    requires forall m <- Retained(t.state) :: FromDaemon(m)
    ensures StateChange(t, React(t, e).0, LinkEventOf(t, e))
    ensures Online(React(t, e).0) ==> React(t, e).0.linked
    ensures forall m <- Retained(React(t, e).0.state) :: FromDaemon(m)
  {
    hide Encode, FromBytes, NextBackoff, MsgOf;
    assert t.state.Resyncing? ==> t.state.message in Retained(t.state);
  }
}
