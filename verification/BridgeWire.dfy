/** The bytes on every session carry whole frames and at most one torn one, in both directions. */
module BridgeWire {
  import opened Bytes
  import opened DeviceCodec
  import opened FrameReader
  import opened UartLine
  import opened ConnProtocol
  import opened Bridge
  import opened BridgeLinks
  import F = Firmware

  function FramesBytes(ms: seq<Msg>): seq<byte> {
    if ms == [] then [] else FrameBytes(ms[0].frame) + FramesBytes(ms[1..])
  }

  lemma {:induction false} FramesBytesSnoc(ms: seq<Msg>, m: Msg)
    ensures FramesBytes(ms + [m]) == FramesBytes(ms) + FrameBytes(m.frame)
  {
    hide FrameBytes;
    if ms == [] {
      assert ms + [m] == [m] && [m][1..] == [];
    } else {
      FramesBytesSnoc(ms[1..], m);
      assert (ms + [m])[1..] == ms[1..] + [m];
      Associates(FrameBytes(ms[0].frame), FramesBytes(ms[1..]), FrameBytes(m.frame));
    }
  }

  /** What follows the whole frames. */
  function Tail(bytes: seq<byte>, flight: seq<Msg>): seq<byte>
    requires |FramesBytes(flight)| <= |bytes|
  {
    bytes[|FramesBytes(flight)|..]
  }

  predicate Starts(bytes: seq<byte>, flight: seq<Msg>) {
    FramesBytes(flight) <= bytes
  }

  /** Towards the device: the frames in flight, and then nothing the firmware can read. */
  predicate CarriesUp(bytes: seq<byte>, flight: seq<Msg>) {
    && Starts(bytes, flight) && ReadFrame(Tail(bytes, flight)).More?
    && forall m <- flight :: SentByDaemon(m)
  }

  /** Towards the daemon: frames the firmware produces, and then nothing the daemon can decode. */
  predicate CarriesDown(bytes: seq<byte>, flight: seq<Msg>) {
    && Starts(bytes, flight) && Decode(Tail(bytes, flight)).More?
    && forall m <- flight :: F.Produced(m)
  }

  /** The frames the daemon sends: data, configurations within range, reset requests. */
  predicate SentByDaemon(m: Msg) {
    || m.frame.kind == 1
    || (m.frame.kind == 2 && |m.frame.body| == 8 && InRange(ConfigFieldsOf(m.frame.body)))
    || m.frame == Frame(3, [1])
  }

  lemma MsgOfIsSentByDaemon(m: DeviceMessage, tag: nat)
    requires FromDaemon(m)
    ensures SentByDaemon(MsgOf(m, tag)) && Encode(m) == FrameBytes(MsgOf(m, tag).frame)
    ensures IsToken(MsgOf(m, tag)) <==> m.ControlReq?
  {
    EncodeIsFrameBytes(m);
    if m.Config? { ConfigFieldsAgree(m); }
  }

  /** A frame the firmware produces, as the daemon decodes it. */
  function DeviceOf(m: Msg): DeviceMessage
    requires F.Produced(m)
  {
    if m.frame.kind == 1 then Data(|m.frame.body|, Pad(m.frame.body))
    else if m.frame.body == [1] then ControlRes(Done) else ControlRes(NotSupported)
  }

  lemma ProducedIsEncoded(m: Msg)
    requires F.Produced(m)
    ensures FrameBytes(m.frame) == Encode(DeviceOf(m)) && ZeroPadded(DeviceOf(m))
  {
    assert FrameOf(DeviceOf(m)) == m.frame;
    EncodeIsFrameBytes(DeviceOf(m));
  }

  lemma StartsSplit(bytes: seq<byte>, flight: seq<Msg>)
    requires Starts(bytes, flight) && flight != []
    ensures var n := |FrameBytes(flight[0].frame)|;
            && n <= |bytes| && bytes == FrameBytes(flight[0].frame) + bytes[n..]
            && Starts(bytes[n..], flight[1..]) && Tail(bytes[n..], flight[1..]) == Tail(bytes, flight)
  {
    hide FrameBytes;
    var n := |FrameBytes(flight[0].frame)|;
    var all := FramesBytes(flight);
    assert bytes[..|all|] == all;
    assert all[..n] == FrameBytes(flight[0].frame) && all[n..] == FramesBytes(flight[1..]);
    assert bytes[n..][..|all| - n] == all[n..];
  }

  /** Reading a frame takes the oldest in flight. */
  lemma UpRead(bytes: seq<byte>, flight: seq<Msg>)
    requires CarriesUp(bytes, flight) && ReadFrame(bytes).Item?
    ensures flight != [] && ReadFrame(bytes).msg == flight[0].frame
    ensures CarriesUp(bytes[ReadFrame(bytes).used..], flight[1..])
  {
    hide FrameBytes, ReadFrame;
    assert bytes[0..] == bytes;
    if flight != [] {
      StartsSplit(bytes, flight);
      var n := |FrameBytes(flight[0].frame)|;
      ReadFrameInvertsFrameBytes(flight[0].frame, bytes[n..]);
    }
  }

  lemma UpSend(bytes: seq<byte>, flight: seq<Msg>, m: Msg)
    requires bytes == FramesBytes(flight) && (forall x <- flight :: SentByDaemon(x)) && SentByDaemon(m)
    ensures bytes + FrameBytes(m.frame) == FramesBytes(flight + [m])
    ensures CarriesUp(bytes + FrameBytes(m.frame), flight + [m])
  {
    hide FrameBytes;
    FramesBytesSnoc(flight, m);
    assert Tail(bytes + FrameBytes(m.frame), flight + [m]) == [];
  }

  lemma UpTear(bytes: seq<byte>, flight: seq<Msg>, f: Frame, cut: nat)
    requires bytes == FramesBytes(flight) && (forall x <- flight :: SentByDaemon(x)) && cut < |FrameBytes(f)|
    ensures CarriesUp(bytes + FrameBytes(f)[..cut], flight)
  {
    hide FrameBytes, ReadFrame;
    assert Tail(bytes + FrameBytes(f)[..cut], flight) == FrameBytes(f)[..cut];
    StrictPrefixOfFrameAsksForMore(f, cut);
  }

  /** Decoding takes the oldest frame in flight. */
  lemma DownRead(bytes: seq<byte>, flight: seq<Msg>)
    requires CarriesDown(bytes, flight) && Decode(bytes).Item?
    ensures flight != [] && Decode(bytes).msg == DeviceOf(flight[0])
    ensures CarriesDown(bytes[Decode(bytes).used..], flight[1..])
    ensures bytes == FramesBytes(flight) ==> bytes[Decode(bytes).used..] == FramesBytes(flight[1..])
    ensures Decode(bytes).used <= |bytes|
  {
    hide FrameBytes, Decode, F.Produced, DeviceOf;
    assert bytes[0..] == bytes;
    if flight != [] {
      StartsSplit(bytes, flight);
      ProducedIsEncoded(flight[0]);
      DecodeInvertsEncode(DeviceOf(flight[0]), bytes[|FrameBytes(flight[0].frame)|..]);
    }
  }

  lemma DownSend(bytes: seq<byte>, flight: seq<Msg>, m: Msg)
    requires bytes == FramesBytes(flight) && (forall x <- flight :: F.Produced(x)) && F.Produced(m)
    ensures bytes + FrameBytes(m.frame) == FramesBytes(flight + [m])
    ensures CarriesDown(bytes + FrameBytes(m.frame), flight + [m])
  {
    hide FrameBytes;
    FramesBytesSnoc(flight, m);
    assert Tail(bytes + FrameBytes(m.frame), flight + [m]) == [];
  }

  lemma DownTear(bytes: seq<byte>, flight: seq<Msg>, m: Msg, cut: nat)
    requires bytes == FramesBytes(flight) && (forall x <- flight :: F.Produced(x)) && F.Produced(m)
    requires cut < |FrameBytes(m.frame)|
    ensures CarriesDown(bytes + FrameBytes(m.frame)[..cut], flight)
  {
    hide FrameBytes, Decode;
    assert Tail(bytes + FrameBytes(m.frame)[..cut], flight) == FrameBytes(m.frame)[..cut];
    ProducedIsEncoded(m);
    StrictPrefixOfEncodeAsksForMore(DeviceOf(m), cut);
  }

  // ---------------------------------------------------------------- the invariant

  predicate SessionOk(ses: Session) {
    CarriesUp(ses.up, ses.upFlight) && CarriesDown(ses.down, ses.downFlight)
  }

  /** The writer of a direction has not given it up, so no frame on it is torn. */
  predicate UpIsWhole(ses: Session) { ses.up == FramesBytes(ses.upFlight) }
  predicate DownIsWhole(ses: Session) { ses.down == FramesBytes(ses.downFlight) }

  predicate WireInv(s: Sys) {
    && s.fw.sessions <= |s.sessions|
    && (!s.fw.tcp.Accepting? ==> s.fw.sessions > 0)
    && (s.task.linked ==> s.sessions != [])
    && (forall ses <- s.sessions :: SessionOk(ses))
    && (s.task.linked && Online(s.task) ==> UpIsWhole(Newest(s)))
    && (!s.fw.tcp.Accepting? ==> DownIsWhole(s.sessions[s.fw.sessions - 1]))
    && (forall i :: s.fw.sessions <= i < |s.sessions| ==> s.sessions[i].down == [] && s.sessions[i].downFlight == [])
  }

  lemma NewSessionOk()
    ensures SessionOk(NewSession) && UpIsWhole(NewSession) && DownIsWhole(NewSession)
  {
  }

  /** The newest session after an event. */
  function After(ses: Session, le: LinkEvent): Session {
    match le
    case Sends(m, tag, _) => Effect([ses], Accepted(m, tag))[0]
    case Tears(m, tag, cut, _) => Effect([ses], Torn(m, tag, cut))[0]
    case Takes(m) => Effect([ses], Decoded(m))[0]
    case _ => ses
  }

  lemma LinkedIsNewest(ss: seq<Session>, le: LinkEvent)
    ensures le.Opens? ==> Linked(ss, le) == ss + [NewSession]
    ensures le.Idle? ==> Linked(ss, le) == ss
    ensures !le.Opens? ==> |Linked(ss, le)| == |ss|
    ensures !le.Opens? && ss != [] ==> Linked(ss, le) == ss[|ss| - 1 := After(ss[|ss| - 1], le)]
  {
    hide Encode, Decode, MsgOf;
  }

  /** What may happen to the newest session at all. */
  predicate Allowed(ses: Session, le: LinkEvent) {
    match le
    case Sends(m, _, _) => UpIsWhole(ses) && FromDaemon(m)
    case Tears(m, _, cut, _) => UpIsWhole(ses) && FromDaemon(m) && cut < |Encode(m)|
    case Takes(m) => Decode(ses.down).Item?
    case _ => true
  }

  /** What an event does to the newest session keeps it in order. */
  lemma NewestAfter(ses: Session, le: LinkEvent)
    requires SessionOk(ses) && Allowed(ses, le)
    ensures SessionOk(After(ses, le))
    ensures !le.Tears? && UpIsWhole(ses) ==> UpIsWhole(After(ses, le))
    ensures DownIsWhole(ses) ==> DownIsWhole(After(ses, le))
    ensures !le.Takes? ==> After(ses, le).down == ses.down && After(ses, le).downFlight == ses.downFlight
    ensures After(ses, le).upFlight == (if le.Sends? then ses.upFlight + [MsgOf(le.m, le.tag)] else ses.upFlight)
    ensures le.Takes? ==>
              && ses.downFlight != [] && F.Produced(ses.downFlight[0])
              && After(ses, le).downFlight == ses.downFlight[1..]
              && Decode(ses.down).msg == DeviceOf(ses.downFlight[0])
  {
    hide Encode, Decode, FrameBytes, CarriesUp, CarriesDown, DeviceOf;
    AllSent(ses.up, ses.upFlight);
    AllProduced(ses.down, ses.downFlight);
    match le {
      case Sends(m, tag, _) =>
        MsgOfIsSentByDaemon(m, tag);
        UpSend(ses.up, ses.upFlight, MsgOf(m, tag));
      case Tears(m, tag, cut, _) =>
        MsgOfIsSentByDaemon(m, tag);
        UpTear(ses.up, ses.upFlight, MsgOf(m, tag).frame, cut);
      case Takes(m) =>
        DownRead(ses.down, ses.downFlight);
      case Opens =>
      case Idle =>
    }
  }

  lemma AllSent(bytes: seq<byte>, flight: seq<Msg>)
    requires CarriesUp(bytes, flight)
    ensures forall m <- flight :: SentByDaemon(m)
  {
  }

  lemma AllProduced(bytes: seq<byte>, flight: seq<Msg>)
    requires CarriesDown(bytes, flight)
    ensures forall m <- flight :: F.Produced(m)
  {
  }

  // ---------------------------------------------------------------- the invariant is kept

  /** The event is one the session allows. */
  lemma EventIsAllowed(s: Sys, e: Event)
    requires WireInv(s) && LinkMatchesState(s.task) && CanSys(s, Daemon(e))
    requires StateChange(s.task, React(s.task, e).0, LinkEventOf(s.task, e))
    ensures var le := LinkEventOf(s.task, e);
            le.Sends? || le.Tears? || le.Takes? ==> s.sessions != [] && Allowed(Newest(s), le)
  {
    hide React, Encode, Decode, FromBytes, SessionOk, UpIsWhole, DownIsWhole;
  }

  lemma TakenIsDecoded(t: Task, e: Event)
    requires Can(t, e)
    ensures LinkEventOf(t, e).Takes? <==> e.Incoming?
    ensures LinkEventOf(t, e).Takes? ==> e.m == LinkEventOf(t, e).m
  {
    hide Encode, FromBytes;
  }

  /** The newest session after an event, in terms of the newest one before it. */
  predicate NewestMoves(ses: Session, after: Session, le: LinkEvent) {
    && SessionOk(after)
    && (!le.Tears? && UpIsWhole(ses) ==> UpIsWhole(after))
    && (DownIsWhole(ses) ==> DownIsWhole(after))
    && (!le.Takes? ==> after.down == ses.down && after.downFlight == ses.downFlight)
    && after.upFlight == (if le.Sends? then ses.upFlight + [MsgOf(le.m, le.tag)] else ses.upFlight)
    && (le.Takes? ==>
         && ses.downFlight != [] && F.Produced(ses.downFlight[0])
         && after.downFlight == ses.downFlight[1..] && le.m == DeviceOf(ses.downFlight[0]))
  }

  /** All an event does to the system, by its link event. */
  predicate Moves(s: Sys, t: Sys, le: LinkEvent) {
    && t.fw == s.fw && StateChange(s.task, t.task, le)
    && (Online(t.task) ==> t.task.linked)
    && t.attempts == s.attempts + Attempted(le)
    && t.got == (if le.Takes? && s.sessions != [] && Newest(s).downFlight != [] then s.got + [Newest(s).downFlight[0]] else s.got)
    && (le.Idle? ==> t.sessions == s.sessions)
    && (le.Opens? ==> t.sessions == s.sessions + [NewSession])
    && (le.Sends? || le.Tears? || le.Takes? ==> s.sessions != [])
    && (!le.Opens? && s.sessions != [] ==>
         && t.sessions != []
         && t.sessions == s.sessions[|s.sessions| - 1 := Newest(t)]
         && NewestMoves(Newest(s), Newest(t), le))
  }

  lemma MovesWithEvents(s: Sys, e: Event)
    requires WireInv(s) && LinkMatchesState(s.task) && CanSys(s, Daemon(e))
    requires forall m <- Retained(s.task.state) :: FromDaemon(m)
    ensures Moves(s, DoSys(s, Daemon(e)), LinkEventOf(s.task, e))
  {
    hide React, Can, LinkMatchesState, LinkEventOf, Effects, Linked, Allowed, After, SessionOk, UpIsWhole, DownIsWhole, Project,
      Tokens, Retained, MsgOf, Decode, Encode, DeviceOf, F.Produced, StateChange, Attempted, FromDaemon;
    var le, t := LinkEventOf(s.task, e), DoSys(s, Daemon(e));
    StateChangeOfEvents(s.task, e);
    EffectsOfEvents(s.task, e, s.sessions);
    AttemptsOfEvents(s.task, e);
    EventIsAllowed(s, e);
    TakenIsDecoded(s.task, e);
    LinkedIsNewest(s.sessions, le);
    if s.sessions != [] && !le.Opens? {
      if le.Idle? { AlwaysAllowed(Newest(s), le); }
      assert SessionOk(Newest(s));
      NewestAfter(Newest(s), le);
      assert Newest(t) == After(Newest(s), le);
    }
  }

  lemma WireStepDaemon(s: Sys, e: Event)
    requires WireInv(s) && LinkMatchesState(s.task) && CanSys(s, Daemon(e))
    requires forall m <- Retained(s.task.state) :: FromDaemon(m)
    ensures WireInv(DoSys(s, Daemon(e)))
  {
    hide DoSys, CanSys, LinkMatchesState, LinkEventOf, SessionOk, UpIsWhole, DownIsWhole, MsgOf, DeviceOf, F.Produced, Attempted, Encode;
    MovesWithEvents(s, e);
    NewSessionOk();
  }

  lemma AlwaysAllowed(ses: Session, le: LinkEvent)
    requires le.Opens? || le.Idle?
    ensures Allowed(ses, le)
  {
  }

  /** The frame being sent is one the firmware produced. */
  lemma SentIsProduced(fw: F.Fw)
    requires F.Inv(fw) && fw.tcp.Sending?
    ensures F.Produced(fw.tcp.m)
  {
    hide F.Produced, F.Taken;
    assert fw.tcp.m in F.SendHand(fw);
    assert fw.tcp.m in fw.pushed;
  }

  /** The frame being read is the oldest in flight, with its tag. */
  lemma ReadIsOldest(s: Sys, m: Msg)
    requires WireInv(s) && s.fw.tcp.Reading? && ReadsFromSession(s, m)
    ensures var ses := s.sessions[Serving(s)];
            ses.upFlight != [] && ses.upFlight[0] == m && SentByDaemon(m)
  {
    hide FrameBytes, ReadFrame, CarriesUp, CarriesDown;
    var ses := s.sessions[Serving(s)];
    assert SessionOk(ses);
    UpRead(ses.up, ses.upFlight);
    AllSent(ses.up, ses.upFlight);
  }

  lemma ServedAfterRead(ses: Session)
    requires SessionOk(ses) && ReadFrame(ses.up).Item?
    ensures ses.upFlight != []
    ensures SessionOk(ses.(up := ses.up[ReadFrame(ses.up).used..], upFlight := ses.upFlight[1..]))
    ensures UpIsWhole(ses) ==> ses.up[ReadFrame(ses.up).used..] == FramesBytes(ses.upFlight[1..])
  {
    hide FrameBytes, CarriesDown;
    UpRead(ses.up, ses.upFlight);
    if UpIsWhole(ses) {
      StartsSplit(ses.up, ses.upFlight);
      ReadFrameInvertsFrameBytes(ses.upFlight[0].frame, ses.up[|FrameBytes(ses.upFlight[0].frame)|..]);
    }
  }

  lemma ServedAfterSend(ses: Session, m: Msg, cut: nat)
    requires SessionOk(ses) && DownIsWhole(ses) && F.Produced(m)
    ensures var sent := ses.(down := ses.down + FrameBytes(m.frame), downFlight := ses.downFlight + [m]);
            SessionOk(sent) && DownIsWhole(sent)
    ensures cut < |FrameBytes(m.frame)| ==> SessionOk(ses.(down := ses.down + FrameBytes(m.frame)[..cut]))
  {
    hide FrameBytes, CarriesUp, CarriesDown;
    AllProduced(ses.down, ses.downFlight);
    DownSend(ses.down, ses.downFlight, m);
    if cut < |FrameBytes(m.frame)| {
      DownTear(ses.down, ses.downFlight, m, cut);
    }
  }

  lemma WireStepDevice(s: Sys, a: F.Act, cut: nat)
    requires WireInv(s) && F.Inv(s.fw) && CanSys(s, Device(a, cut))
    ensures WireInv(DoSys(s, Device(a, cut)))
  {
    hide F.Inv, FrameBytes, ReadFrame, SessionOk, UpIsWhole, DownIsWhole, FramesBytes, Tokens, F.Produced, F.LineAfter, F.ReplyTo, F.DataIn;
    match a {
      case ReadMsg(m) =>
        ServedAfterRead(s.sessions[Serving(s)]);
        WholeFromBytes(s.sessions[Serving(s)]);
      case SendOk =>
        SentIsProduced(s.fw);
        ServedAfterSend(s.sessions[Serving(s)], s.fw.tcp.m, cut);
        WholeSameUp(s.sessions[Serving(s)], s.fw.tcp.m, cut);
      case SendFails =>
        SentIsProduced(s.fw);
        ServedAfterSend(s.sessions[Serving(s)], s.fw.tcp.m, cut);
        WholeSameUp(s.sessions[Serving(s)], s.fw.tcp.m, cut);
      case AcceptClient =>
        EmptyIsWhole(s.sessions[s.fw.sessions]);
      case _ =>
    }
  }

  lemma EmptyIsWhole(ses: Session)
    requires ses.down == [] && ses.downFlight == []
    ensures DownIsWhole(ses)
  {
  }

  /** Reading leaves the other direction as whole as it was, and its own too. */
  lemma WholeFromBytes(ses: Session)
    requires SessionOk(ses) && ReadFrame(ses.up).Item?
    ensures var after := ses.(up := ses.up[ReadFrame(ses.up).used..], upFlight := ses.upFlight[1..]);
            ses.upFlight != [] && (DownIsWhole(ses) ==> DownIsWhole(after)) && (UpIsWhole(ses) ==> UpIsWhole(after))
  {
    hide FrameBytes, ReadFrame, FramesBytes, SessionOk;
    ServedAfterRead(ses);
  }

  /** Sending leaves the other direction as whole as it was. */
  lemma WholeSameUp(ses: Session, m: Msg, cut: nat)
    ensures var sent := ses.(down := ses.down + FrameBytes(m.frame), downFlight := ses.downFlight + [m]);
            UpIsWhole(ses) ==> UpIsWhole(sent)
    ensures cut < |FrameBytes(m.frame)| && UpIsWhole(ses) ==>
              UpIsWhole(ses.(down := ses.down + FrameBytes(m.frame)[..cut]))
  {
  }
}
