/**
  What each event makes of the connection task, state by state: which events stop it, drop the link
  or bring it back, what a request is told, and what a read from the terminal becomes.
 */
module ConnEvents {
  import opened Bytes
  import opened DeviceCodec
  import opened Termios
  import opened ConnProtocol

  // ---------------------------------------------------------------- stopping

  /** Told to stop, forgotten by the daemon, or the terminal has failed. */
  predicate Stops(t: Task, e: Event) {
    || e.Shutdown? || e.RequestsClosed?
    || (t.state.Connected? && (e.PtyError? || (e.Incoming? && e.m.Data? && e.write.Broken?)))
  }

  lemma StopsIff(t: Task, e: Event)
    requires Can(t, e) && !t.state.ShuttingDown?
    ensures React(t, e).0.state.ShuttingDown? <==> Stops(t, e)
  {
    hide Encode, FromBytes, NextBackoff;
  }

  /** A task that lives can be told to stop. */
  lemma StopCanCome(t: Task)
    requires !t.done && !t.state.ShuttingDown?
    ensures Can(t, Shutdown(0)) && Can(t, RequestsClosed(0))
  {
  }

  /** All that is left is the end: a waiting request is refused, the daemon told, and nothing follows. */
  lemma OnlyTheEndIsLeft(t: Task, e: Event)
    requires Can(t, e) && t.state.ShuttingDown?
    ensures var (u, did) := React(t, e);
            && u.state.ShuttingDown? && u.done && u.waiting == None
            && did == (if t.waiting.Some? then [Answered(t.waiting.value, Unavailable)] else []) + [SentClosed]
            && forall f :: !Can(u, f)
  {
  }

  lemma {:induction false} StoppedStays(es: seq<Event>, i: nat)
    requires Exec(es).Some? && i < |es| && (es[i].Shutdown? || es[i].RequestsClosed? || es[i].PtyError?)
    ensures Exec(es).value.t.state.ShuttingDown?
    decreases |es|
  {
    hide React, Can;
    var n := |es| - 1;
    var l := Exec(es[..n]).value;
    if i < n {
      assert es[..n][i] == es[i];
      StoppedStays(es[..n], i);
      ShutdownIsFinal(l.t, es[n]);
    } else {
      OnceTold(l.t, es[n]);
    }
  }

  lemma OnceTold(t: Task, e: Event)
    requires Can(t, e) && (e.Shutdown? || e.RequestsClosed? || e.PtyError?)
    ensures React(t, e).0.state.ShuttingDown?
  {
    assert e.PtyError? ==> t.state.Connected?;
    StopsIff(t, e);
  }

  function FarewellView(a: Action): seq<()> { if a.SentClosed? then [()] else [] }

  lemma FarewellDelta(t: Task, e: Event)
    requires Can(t, e)
    ensures Project(React(t, e).1, FarewellView) == if React(t, e).0.done then [()] else []
  {
    hide Encode, FromBytes, NextBackoff, Project, React;
    if t.state.ShuttingDown? {
      OnlyTheEndIsLeft(t, e);
      ProjectShort(React(t, e).1, FarewellView);
    } else {
      NoFarewellYet(t, e);
      ProjectQuiet(React(t, e).1, FarewellView);
    }
  }

  lemma NoFarewellYet(t: Task, e: Event)
    requires Can(t, e) && !t.state.ShuttingDown?
    ensures !React(t, e).0.done && forall a <- React(t, e).1 :: FarewellView(a) == []
  {
    hide Encode, FromBytes, NextBackoff;
  }

  /** The daemon is told once, when the task is done, and not before. */
  lemma {:induction false} OneFarewell(es: seq<Event>)
    requires Exec(es).Some?
    ensures var l := Exec(es).value; Project(l.h, FarewellView) == if l.t.done then [()] else []
    decreases |es|
  {
    hide React, Project;
    if es == [] {
      ProjectNone(FarewellView);
    } else {
      var l, e := Exec(es[..|es| - 1]).value, es[|es| - 1];
      OneFarewell(es[..|es| - 1]);
      FarewellDelta(l.t, e);
      ProjectAppend(l.h, React(l.t, e).1, FarewellView);
    }
  }

  // ---------------------------------------------------------------- losing and regaining the link

  /** The link is found lost, or a send fails. */
  predicate LosesLink(t: Task, e: Event) {
    match t.state
    case Connected =>
      || e.LinkLost?
      || ((e.PtyChange? || e.PtyData? || (e.HwRequest? && t.waiting == None)) && e.send.Fails?)
    case Resyncing(_) => e.ResyncDone? && e.send.Fails?
    case _ => false
  }

  lemma LosesLinkIff(t: Task, e: Event)
    requires Can(t, e) && LinkMatchesState(t) && !t.state.Reconnecting?
    ensures React(t, e).0.state.Reconnecting? <==> LosesLink(t, e)
  {
    hide Encode, FromBytes, NextBackoff;
  }

  /** From reconnecting only a connect leads on, to sending what is retained first; else it waits on. */
  lemma RegainsLink(t: Task, e: Event)
    requires Can(t, e) && LinkMatchesState(t) && t.state.Reconnecting? && !Stops(t, e)
    ensures var u := React(t, e).0;
            if e == SleepElapsed(true) then
              u.state == if t.state.pending.Some? then Resyncing(t.state.pending.value) else Connected
            else u.state.Reconnecting? && u.state.pending == t.state.pending
  {
  }

  lemma Resyncs(t: Task, e: Event)
    requires Can(t, e) && LinkMatchesState(t) && t.state.Resyncing? && !Stops(t, e) && !LosesLink(t, e)
    ensures React(t, e).0.state == if e.ResyncDone? then Connected else t.state
  {
    hide Encode;
  }

  /** While connected nothing but stopping and losing the link changes that. */
  lemma StaysConnected(t: Task, e: Event)
    requires Can(t, e) && LinkMatchesState(t) && t.state.Connected? && !Stops(t, e) && !LosesLink(t, e)
    ensures React(t, e).0.state.Connected? && React(t, e).0.linked
  {
    hide Encode, FromBytes, NextBackoff;
  }

  // ---------------------------------------------------------------- what is told and what is read

  /** A status request learns whether the task is connected, and changes nothing. */
  lemma StatusIsTrue(t: Task, id: nat)
    requires Can(t, StatusRequest(id))
    ensures React(t, StatusRequest(id)) == (t, [Asked(id), Answered(id, Status(t.state.Connected?))])
  {
  }

  /** A reset request is refused at once while another waits and while there is no connection. */
  lemma RefusedAtOnce(t: Task, id: nat, req: ControlRequest, send: Send)
    requires Can(t, HwRequest(id, req, send)) && (!t.state.Connected? || t.waiting.Some?)
    ensures React(t, HwRequest(id, req, send)) == (t, [Asked(id), Answered(id, Unavailable)])
  {
  }

  /** No other reply tells a status or a device's answer. */
  lemma RepliesByEvent(t: Task, e: Event, id: nat, reply: Reply)
    requires Can(t, e) && Answered(id, reply) in React(t, e).1
    ensures match reply
            case Status(up) => e == StatusRequest(id) && (up <==> t.state.Connected?)
            case Answer(res) => e.Incoming? && e.m == ControlRes(res) && t.waiting == Some(id)
            case Unavailable => !e.StatusRequest? && !e.Incoming?
  {
    hide Encode, FromBytes, NextBackoff, ConfigOf;
  }

  /** Data read becomes a data message of exactly those bytes, a change its configuration; else nothing is read. */
  lemma ReadsByEvent(t: Task, e: Event)
    requires Can(t, e)
    ensures var did := React(t, e).1;
            match e
            case PtyData(bytes, _) =>
              did != [] && did[0].ReadFromPty? && did[0].m.Data? && did[0].m.body[..did[0].m.size] == bytes
              && forall a <- did[1..] :: !a.ReadFromPty?
            case PtyChange(c, _) =>
              did != [] && did[0] == ReadFromPty(Config(c.baudrate, c.dataBits, c.stopBits, c.parity, c.hwFlowCtl))
              && forall a <- did[1..] :: !a.ReadFromPty?
            case _ => forall a <- did :: !a.ReadFromPty?
  {
    hide Encode, NextBackoff, Pad;
  }
}
