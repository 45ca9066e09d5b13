/**
  The whole bridge: one connection task, the TCP sessions it opens one after the other, and the
  firmware at the other end.

  A session carries bytes both ways. The firmware serves sessions in the order they were opened,
  and reads whatever the daemon's transport accepted up to the point where either side gives up.
  `upFlight` and `downFlight` are bookkeeping: the whole frames among the bytes not yet read.
 */
module Bridge {
  import opened Bytes
  import opened DeviceCodec
  import opened FrameReader
  import F = Firmware
  import opened ConnProtocol

  type Msg = F.Msg

  datatype Session = Session(up: seq<byte>, upFlight: seq<Msg>, down: seq<byte>, downFlight: seq<Msg>)

  const NewSession := Session([], [], [], [])

  /**
    `h`: what the connection task did. `attempts`: the messages it tried to send, each once, in
    order of the first try.
    `got`: the frames it decoded.
   */
  datatype Sys = Sys(
    task: Task,
    fw: F.Fw,
    sessions: seq<Session>,
    h: seq<Action>,
    attempts: seq<Msg>,
    got: seq<Msg>)

  function InitSys(resetEnabled: bool, allowFlow: bool): Sys {
    Sys(Fresh, F.Init(resetEnabled, allowFlow), [], [], [], [])
  }

  datatype Act = Daemon(e: Event) | Device(a: F.Act, cut: nat)

  // ---------------------------------------------------------------- steps of the daemon

  function MsgOf(m: DeviceMessage, tag: nat): Msg { F.Msg(FrameOf(m), tag) }

  /** What one action of the task does to the sessions. It only ever touches the newest. */
  function Effect(ss: seq<Session>, a: Action): seq<Session> {
    if a.Opened? then ss + [NewSession]
    else if ss == [] then ss
    else
      var i := |ss| - 1;
      var s := ss[i];
      match a
      case Accepted(m, tag) => ss[i := s.(up := s.up + Encode(m), upFlight := s.upFlight + [MsgOf(m, tag)])]
      case Torn(m, _, cut) => ss[i := s.(up := s.up + if cut < |Encode(m)| then Encode(m)[..cut] else [])]
      case Decoded(_) =>
        if Decode(s.down).Item? && Decode(s.down).used <= |s.down| then
          ss[i := s.(down := s.down[Decode(s.down).used..],
                     downFlight := if s.downFlight == [] then [] else s.downFlight[1..])]
        else ss
      case _ => ss
  }

  function Effects(ss: seq<Session>, did: seq<Action>): seq<Session>
    decreases |did|
  {
    if did == [] then ss else Effects(Effect(ss, did[0]), did[1..])
  }

  /** A first try: what is read from the terminal, and control requests that are sent at all. */
  function AttemptView(a: Action): seq<Msg> {
    match a
    case ReadFromPty(m) => [MsgOf(m, 0)]
    case Accepted(m, tag) => if m.ControlReq? then [MsgOf(m, tag)] else []
    case Torn(m, tag, _) => if m.ControlReq? then [MsgOf(m, tag)] else []
    case _ => []
  }

  function Newest(s: Sys): Session
    requires s.sessions != []
  {
    s.sessions[|s.sessions| - 1]
  }

  predicate Online(t: Task) { t.state.Connected? || t.state.Resyncing? }

  // ---------------------------------------------------------------- steps of the device

  /** The session the firmware serves now, or will serve next. */
  function Serving(s: Sys): nat {
    if s.fw.tcp.Accepting? || s.fw.sessions == 0 then s.fw.sessions else s.fw.sessions - 1
  }

  /** The next frame of the served session, and the tag it was sent with. */
  predicate ReadsFromSession(s: Sys, m: Msg) {
    && Serving(s) < |s.sessions|
    && var ses := s.sessions[Serving(s)];
       && ReadFrame(ses.up).Item? && m.frame == ReadFrame(ses.up).msg
       && m.tag == if ses.upFlight == [] then 0 else ses.upFlight[0].tag
  }

  predicate CanSys(s: Sys, act: Act) {
    match act
    case Daemon(e) =>
      && Can(s.task, e)
      && (e.Incoming? ==> s.sessions != [] && Decode(Newest(s).down).Item? && Decode(Newest(s).down).msg == e.m)
    case Device(a, cut) =>
      && F.Can(s.fw, a)
      && (a.AcceptClient? ==> s.fw.sessions < |s.sessions|)
      && (a.ReadMsg? ==> ReadsFromSession(s, a.m))
      && (a.SendOk? || a.SendFails? ==> Serving(s) < |s.sessions|)
      && (a.SendFails? ==> cut < |FrameBytes(s.fw.tcp.m.frame)|)
  }

  function DeviceEffect(s: Sys, a: F.Act, cut: nat): seq<Session>
    requires CanSys(s, Device(a, cut))
  {
    var i := Serving(s);
    match a
    case ReadMsg(_) =>
      var ses := s.sessions[i];
      s.sessions[i := ses.(up := ses.up[ReadFrame(ses.up).used..],
                           upFlight := if ses.upFlight == [] then [] else ses.upFlight[1..])]
    case SendOk =>
      var ses := s.sessions[i];
      s.sessions[i := ses.(down := ses.down + FrameBytes(s.fw.tcp.m.frame), downFlight := ses.downFlight + [s.fw.tcp.m])]
    case SendFails =>
      var ses := s.sessions[i];
      s.sessions[i := ses.(down := ses.down + FrameBytes(s.fw.tcp.m.frame)[..cut])]
    case _ => s.sessions
  }

  /** The firmware gives up the session it serves. */
  predicate GivesUp(a: F.Act) { a.SelectFails? || a.ReadFails? || a.SendFails? }

  function DoSys(s: Sys, act: Act): Sys
    requires CanSys(s, act)
  {
    match act
    case Daemon(e) =>
      var (u, did) := React(s.task, e);
      s.(task := u,
         h := s.h + did,
         sessions := Effects(s.sessions, did),
         attempts := s.attempts + Project(did, AttemptView),
         got := if e.Incoming? && Newest(s).downFlight != [] then s.got + [Newest(s).downFlight[0]] else s.got)
    case Device(a, cut) =>
      s.(fw := F.Do(s.fw, a), sessions := DeviceEffect(s, a, cut))
  }

  /** The state after a run of steps, if each was possible when its turn came. */
  function RunFrom(s: Sys, acts: seq<Act>): Option<Sys>
    decreases |acts|
  {
    if acts == [] then Some(s)
    else
      match RunFrom(s, acts[..|acts| - 1])
      case None => None
      case Some(t) => if CanSys(t, acts[|acts| - 1]) then Some(DoSys(t, acts[|acts| - 1])) else None
  }

  function Run(resetEnabled: bool, allowFlow: bool, acts: seq<Act>): Option<Sys> {
    RunFrom(InitSys(resetEnabled, allowFlow), acts)
  }

  ghost predicate ReachableSys(s: Sys) {
    exists r, f, acts :: Run(r, f, acts) == Some(s)
  }

  // ---------------------------------------------------------------- what is on the way

  /** Frames on the wire towards the device, in the sessions it has yet to read, oldest first. */
  function Flights(ss: seq<Session>): seq<Msg> {
    if ss == [] then [] else ss[0].upFlight + Flights(ss[1..])
  }

  function UpPipe(s: Sys): seq<Msg> {
    if Serving(s) <= |s.sessions| then Flights(s.sessions[Serving(s)..]) else []
  }

  /** What the firmware holds, in the order it will come back. */
  function FwPipe(fw: F.Fw): seq<Msg> {
    F.SendHand(fw) + fw.toTcp + F.ReplyHand(fw) + F.TxHand(fw) + fw.toUart + F.TcpHand(fw)
  }

  /** Frames on the wire towards the daemon, if it still holds the session. */
  function DownPipe(s: Sys): seq<Msg> {
    if s.task.linked && s.sessions != [] then Newest(s).downFlight else []
  }

  /** Control requests and their responses. */
  predicate IsToken(m: Msg) { m.frame.kind == 4 || F.IsControl(m) }

  function Toks(ms: seq<Msg>): seq<nat> {
    if ms == [] then [] else (if IsToken(ms[0]) then [ms[0].tag] else []) + Toks(ms[1..])
  }

  /** The control messages anywhere on the way round, nearest to the daemon first. */
  function Tokens(s: Sys): seq<nat> {
    Toks(DownPipe(s)) + Toks(FwPipe(s.fw)) + Toks(UpPipe(s))
  }
}
