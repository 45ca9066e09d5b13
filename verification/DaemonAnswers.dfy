/**
  Which answers reach the client. A response that does not encode ends the client's handler, so the
  length of a refusal's text matters: a request that could be read can still be unanswerable.
 */
module DaemonAnswers {
  import opened Bytes
  import opened Streams
  import opened Utf8
  import opened ControlCodec
  import opened Registry
  import opened DaemonLoop
  import C = ConnProtocol

  predicate EntryFits(c: Connection) { |c.name| <= 255 && |c.ptsPath| <= 255 }

  /** The longest name for which a refusal still fits a response. */
  function Room(r: Refusal): nat {
    match r
    case AlreadyExists => 217
    case NoPty(_) => 255
    case NotFound => 224
    case NotSupported => 211
    case Unavailable => 199
  }

  lemma RefusalFitsIff(r: Refusal, name: Utf8)
    requires |name| <= 255
    ensures |Wording(r, name)| <= 255 <==> |name| <= Room(r)
  {
  }

  /** A request that could be read has a name the registry can list again. */
  lemma DecodedRequestFits(s: seq<byte>)
    requires DecodeRequest(s).Item?
    ensures RequestFits(DecodeRequest(s).msg) && |NameOf(DecodeRequest(s).msg)| <= 255
  {
    DecodedRequestEncodes(s);
    RequestRoundTripsIffFits(DecodeRequest(s).msg, []);
  }

  predicate CanAnswer(cs: seq<Connection>, req: Request, pty: Option<Utf8>, failed: PtyStep, reply: nat -> Option<C.Reply>) {
    match Refused(cs, req, pty, failed, reply)
    case None => true
    case Some(r) => |NameOf(req)| <= Room(r)
  }

  /** The response encodes if and only if the request is granted or its name leaves room for the refusal. */
  lemma ResponseEncodesIff(cs: seq<Connection>, req: Request, pty: Option<Utf8>, failed: PtyStep, status: nat -> bool,
                           reply: nat -> Option<C.Reply>)
    requires (forall c <- cs :: EntryFits(c)) && RequestFits(req) && (pty.Some? ==> |pty.value| <= 255)
    ensures EncodeResponse(Respond(cs, req, pty, failed, status, reply)).ok <==> CanAnswer(cs, req, pty, failed, reply)
  {
    hide Refused, Wording, EncodeResponse, Room;
    var resp, refused := Respond(cs, req, pty, failed, status, reply), Refused(cs, req, pty, failed, reply);
    ResponseRoundTripsIffFits(resp, []);
    if refused.Some? {
      RefusalFitsIff(refused.value, NameOf(req));
    } else if req.List? {
      assert forall i :: 0 <= i < |cs| ==> cs[i] in cs && resp.conns[i] == InfoOf(cs[i], status);
    }
  }

  // ---------------------------------------------------------------- over whole runs

  predicate AllFit(d: Daemon) {
    (forall c <- d.conns :: EntryFits(c)) && forall e <- d.queue :: e.Command? ==> RequestFits(e.req)
  }

  lemma AllFitStep(d: Daemon, a: Act)
    requires Inv(d) && AllFit(d) && Can(d, a)
    ensures AllFit(Do(d, a))
  {
    hide Find, Distinct, Signal, Spawn, Asks, NoZombies, QueueInv, MainInv, SetPhase;
    if a.Take? {
      match d.queue[0] {
        case Closed(name, _) => RemovedKeepsOthers(d.conns, name);
        case Command(Remove(name)) => RemovedKeepsOthers(d.conns, name);
        case Command(Add(_, _, _)) =>
        case Command(List) =>
        case Command(Reset(_)) =>
      }
    }
  }

  lemma {:induction false} AllFitOverRuns(acts: seq<Act>)
    requires Exec(Start, acts).Some?
    ensures AllFit(Exec(Start, acts).value) && Inv(Exec(Start, acts).value)
    decreases |acts|
  {
    hide Can, Do, Inv, AllFit;
    if acts == [] {
      InvAtStart();
      StartFits();
    } else {
      AllFitOverRuns(acts[..|acts| - 1]);
      AllFitStep(Exec(Start, acts[..|acts| - 1]).value, acts[|acts| - 1]);
      InvStep(Exec(Start, acts[..|acts| - 1]).value, acts[|acts| - 1]);
    }
  }

  lemma StartFits()
    ensures AllFit(Start)
  {
  }

  /** Whatever has happened before, the answer to the request taken next reaches its client if and only if it has room. */
  lemma AnswerReachesClientIff(d: Daemon, pty: Option<Utf8>, failed: PtyStep, status: nat -> bool, reply: nat -> Option<C.Reply>)
    requires Reachable(d) && Can(d, Take(pty)) && d.queue[0].Command?
    ensures EncodeResponse(Respond(d.conns, d.queue[0].req, pty, failed, status, reply)).ok
            <==> CanAnswer(d.conns, d.queue[0].req, pty, failed, reply)
  {
    hide Inv, Respond, EncodeResponse, CanAnswer, EntryFits, RequestFits;
    var acts :| Exec(Start, acts) == Some(d);
    AllFitOverRuns(acts);
    ResponseEncodesIff(d.conns, d.queue[0].req, pty, failed, status, reply);
  }

  /** A removal that can be read, of a name nobody has, whose refusal cannot be sent. */
  lemma UnanswerableRequest() returns (d: Daemon, bytes: seq<byte>)
    ensures DecodeRequest(bytes).Item? && DecodeRequest(bytes).used == |bytes|
    ensures Reachable(d) && d.queue == [Command(DecodeRequest(bytes).msg)] && Can(d, Take(None))
    ensures forall status, reply :: !EncodeResponse(Respond(d.conns, d.queue[0].req, None, Open, status, reply)).ok
  {
    LettersAreUtf8(225);
    var m := Request.Remove(seq(225, _ => 0x61));
    RequestRoundTripsIffFits(m, []);
    bytes := EncodeRequest(m).bytes;
    assert bytes + [] == bytes;
    d := Do(Start, Submit(m));
    assert Exec(Start, []) == Some(Start) && [Submit(m)][..0] == [];
    assert Exec(Start, [Submit(m)]) == Some(d);
    forall status, reply
      ensures !EncodeResponse(Respond(d.conns, d.queue[0].req, None, Open, status, reply)).ok
    {
      ResponseEncodesIff(d.conns, m, None, Open, status, reply);
    }
  }
}
