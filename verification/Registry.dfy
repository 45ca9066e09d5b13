/**
  The daemon's registry of connections: `State` of daemon/src/state.rs, the request handler of
  daemon/src/main.rs, and the event loop they run in, as a machine whose steps interleave with
  those of the connection tasks.
 */
module Registry {
  import opened Bytes
  import opened Utf8
  import opened ControlCodec
  import C = ConnProtocol
  import D = DeviceCodec

  /** What the daemon keeps of a connection. `task` stands for its two channels to the task. */
  datatype Connection = Connection(name: Utf8, addr: u32, port: u16, ptsPath: Utf8, task: nat)

  // ---------------------------------------------------------------- decisions

  /** The first connection of that name, or the end of the list. */
  function Find(cs: seq<Connection>, name: Utf8): (i: nat)
    ensures i <= |cs|
    ensures i < |cs| ==> cs[i].name == name
    ensures forall j :: 0 <= j < i ==> cs[j].name != name
    ensures i == |cs| <==> forall c <- cs :: c.name != name
  {
    if cs == [] || cs[0].name == name then 0 else 1 + Find(cs[1..], name)
  }

  predicate Exists(cs: seq<Connection>, name: Utf8) { Find(cs, name) < |cs| }

  /** `Vec::swap_remove`: the last entry takes the place of the removed one. */
  function SwapRemove(cs: seq<Connection>, i: nat): seq<Connection>
    requires i < |cs|
  {
    cs[i := cs[|cs| - 1]][..|cs| - 1]
  }

  predicate Distinct(cs: seq<Connection>) {
    forall i, j :: 0 <= i < j < |cs| ==> cs[i].name != cs[j].name
  }

  lemma MultisetOfFour<T>(a: seq<T>, x: T, b: seq<T>, y: T)
    ensures multiset(a + [x] + b + [y]) == multiset(a) + multiset{x} + multiset(b) + multiset{y}
    ensures multiset(a + [y] + b) == multiset(a) + multiset{y} + multiset(b)
  {
  }

  lemma SwapRemoveInside(cs: seq<Connection>, i: nat)
    requires i < |cs| - 1
    ensures cs == cs[..i] + [cs[i]] + cs[i + 1..|cs| - 1] + [cs[|cs| - 1]]
    ensures SwapRemove(cs, i) == cs[..i] + [cs[|cs| - 1]] + cs[i + 1..|cs| - 1]
  {
  }

  /** The order changes, but nothing else is lost or doubled. */
  lemma SwapRemoveKeepsOthers(cs: seq<Connection>, i: nat)
    requires i < |cs|
    ensures multiset(SwapRemove(cs, i)) == multiset(cs) - multiset{cs[i]}
  {
    var last := |cs| - 1;
    if i < last {
      SwapRemoveInside(cs, i);
      MultisetOfFour(cs[..i], cs[i], cs[i + 1..last], cs[last]);
    } else {
      assert cs == cs[..last] + [cs[last]];
    }
  }

  lemma SwapRemoveFromDistinct(cs: seq<Connection>, i: nat)
    requires i < |cs| && Distinct(cs)
    ensures Distinct(SwapRemove(cs, i))
    ensures forall c :: c in SwapRemove(cs, i) <==> c in cs && c.name != cs[i].name
  {
    var out, last := SwapRemove(cs, i), |cs| - 1;
    assert forall j :: 0 <= j < |out| ==> out[j] == cs[if j == i then last else j];
    forall c | c in cs && c.name != cs[i].name
      ensures c in out
    {
      var j :| 0 <= j < |cs| && cs[j] == c;
      assert out[if j == last then i else j] == c;
    }
  }

  /** What a request does to the registry: the new list, the task spawned, the task told to stop. */
  datatype Outcome = Outcome(conns: seq<Connection>, spawned: Option<Utf8>, stopped: Option<nat>)

  function Removed(cs: seq<Connection>, name: Utf8): Outcome {
    var i := Find(cs, name);
    if i == |cs| then Outcome(cs, None, None) else Outcome(SwapRemove(cs, i), None, Some(cs[i].task))
  }

  /** `pty`: the slave path of the pseudo-terminal, if one could be opened. `next`: the new task. */
  function Handled(cs: seq<Connection>, req: Request, pty: Option<Utf8>, next: nat): Outcome {
    match req
    case Add(name, addr, port) =>
      if Exists(cs, name) || pty.None? then Outcome(cs, None, None)
      else Outcome(cs + [Connection(name, addr, port, pty.value, next)], Some(name), None)
    case Remove(name) => Removed(cs, name)
    case List => Outcome(cs, None, None)
    case Reset(_) => Outcome(cs, None, None)
  }

  // ---------------------------------------------------------------- the objects

  /** The calls that open and wrap a pseudo-terminal, in order. */
  datatype PtyStep = Open | Grant | Unlock | Name | Wrap

  datatype Refusal = AlreadyExists | NoPty(step: PtyStep) | NotFound | NotSupported | Unavailable

  class State {
    var conns: seq<Connection>

    constructor ()
      ensures conns == []
    {
      conns := [];
    }

    method Add(c: Connection)
      modifies this
      ensures conns == old(conns) + [c]
    {
      conns := conns + [c];
    }

    /** `position`: search from the front. */
    method Position(name: Utf8) returns (i: nat)
      ensures i == Find(conns, name)
    {
      i := 0;
      while i < |conns| && conns[i].name != name
        invariant i <= |conns| && forall j :: 0 <= j < i ==> conns[j].name != name
      {
        i := i + 1;
      }
    }

    method Exists(name: Utf8) returns (found: bool)
      ensures found <==> exists c <- conns :: c.name == name
    {
      var i := Position(name);
      found := i < |conns|;
      assert found ==> conns[i] in conns;
    }

    /** The task of the removed connection is told to stop. */
    method Remove(name: Utf8) returns (stopped: Option<nat>)
      modifies this
      ensures Outcome(conns, None, stopped) == Removed(old(conns), name)
      ensures stopped.Some? <==> exists c <- old(conns) :: c.name == name
      ensures Distinct(old(conns)) ==>
                && Distinct(conns) && (forall c :: c in conns <==> c in old(conns) && c.name != name)
                && (stopped.Some? ==> exists c <- old(conns) :: c.name == name && stopped == Some(c.task))
    {
      var i := Position(name);
      if i == |conns| {
        return None;
      }
      assert conns[i] in conns;
      if Distinct(conns) {
        SwapRemoveFromDistinct(conns, i);
      }
      stopped := Some(conns[i].task);
      conns := SwapRemove(conns, i);
    }

    /** `status`: what each task answers, false if it is gone. */
    method List(status: nat -> bool) returns (list: seq<Info>)
      ensures |list| == |conns|
      ensures forall i :: 0 <= i < |list| ==>
                list[i] == Info(conns[i].name, conns[i].addr, conns[i].port, conns[i].ptsPath, status(conns[i].task))
    {
      list := [];
      for i := 0 to |conns|
        invariant |list| == i
        invariant forall j :: 0 <= j < i ==>
                    list[j] == Info(conns[j].name, conns[j].addr, conns[j].port, conns[j].ptsPath, status(conns[j].task))
      {
        var c := conns[i];
        list := list + [Info(c.name, c.addr, c.port, c.ptsPath, status(c.task))];
      }
    }

    /** `reply`: what each task answers, nothing if it is gone. */
    method SendHardwareCtl(name: Utf8, reply: nat -> Option<C.Reply>) returns (r: Option<C.Reply>)
      ensures r == if Find(conns, name) == |conns| then None else reply(conns[Find(conns, name)].task)
    {
      var i := Position(name);
      r := if i == |conns| then None else reply(conns[i].task);
    }
  }

  // ---------------------------------------------------------------- responses

  /** What could not be done for a terminal. */
  function Failing(step: PtyStep): string {
    match step
    case Open => "create pty"
    case Grant => "grant pty"
    case Unlock => "unlock pty"
    case Name => "get pts name"
    case Wrap => "create AsyncPty"
  }

  function Before(r: Refusal): Utf8 {
    match r
    case AlreadyExists => Ascii("Connection with name '")
    case NoPty(step) => Ascii("Failed to " + Failing(step) + ". See daemon logs for details")
    case NotFound => Ascii("No connection found with name: ")
    case NotSupported => Ascii("Connection '")
    case Unavailable => Ascii("Connection '")
  }

  function After(r: Refusal): Utf8 {
    match r
    case AlreadyExists => Ascii("' already exists")
    case NoPty(_) => []
    case NotFound => []
    case NotSupported => Ascii("' does not support reset command")
    case Unavailable => Ascii("' is currently unavailable (offline or busy)")
  }

  /** The text of a refusal, around the name asked for. */
  function Wording(r: Refusal, name: Utf8): Utf8 {
    if r.NoPty? then Before(r)
    else
      Utf8Append(Before(r), name);
      Utf8Append(Before(r) + name, After(r));
      Before(r) + name + After(r)
  }

  /** The letters that tell the wordings apart. */
  lemma WordingMarks(r: Refusal)
    ensures var b, a := Before(r), After(r);
            match r
            case AlreadyExists => |b| > 11 && b[0] == 'C' as int && b[11] == 'w' as int
            case NoPty(step) =>
              |b| == |Failing(step)| + 39 && b[0] == 'F' as int && b[10] == Failing(step)[0] as int
            case NotFound => |b| > 0 && b[0] == 'N' as int
            case NotSupported => |b| == 12 && b[0] == 'C' as int && b[11] == '\'' as int && |a| > 0 && a[|a| - 1] == 'd' as int
            case Unavailable => |b| == 12 && b[0] == 'C' as int && b[11] == '\'' as int && |a| > 0 && a[|a| - 1] == ')' as int
  {
    hide IsUtf8, CharLength;
    if r.NoPty? {
      FailingMarks(r.step);
      var t := "Failed to " + Failing(r.step) + ". See daemon logs for details";
      assert t[10] == Failing(r.step)[0];
    }
  }

  lemma FailingMarks(step: PtyStep)
    ensures match step
            case Open => |Failing(step)| == 10 && Failing(step)[0] == 'c'
            case Grant => |Failing(step)| == 9 && Failing(step)[0] == 'g'
            case Unlock => |Failing(step)| == 10 && Failing(step)[0] == 'u'
            case Name => |Failing(step)| == 12 && Failing(step)[0] == 'g'
            case Wrap => |Failing(step)| == 15 && Failing(step)[0] == 'c'
  {
  }

  /** The client can tell from the text what was refused, and for which name if the text has one. */
  lemma WordingTellsTheRefusal(r: Refusal, name: Utf8, q: Refusal, other: Utf8)
    ensures Wording(r, name) == Wording(q, other) <==> r == q && (r.NoPty? || name == other)
  {
    hide Before, After, IsUtf8, CharLength;
    WordingMarks(r);
    WordingMarks(q);
    if Wording(r, name) == Wording(q, other) {
      SameMarks(r, name, q, other);
      if !r.NoPty? {
        var w := Wording(r, name);
        assert name == w[|Before(r)|..|w| - |After(r)|];
        assert other == w[|Before(r)|..|w| - |After(r)|];
      }
    }
  }

  lemma SameMarks(r: Refusal, name: Utf8, q: Refusal, other: Utf8)
    requires Wording(r, name) == Wording(q, other)
    ensures r == q
  {
    hide Before, After, IsUtf8, CharLength;
    WordingMarks(r);
    WordingMarks(q);
    var w := Wording(r, name);
    assert w[0] == Before(r)[0] == Before(q)[0];
    if r.NoPty? && q.NoPty? {
      FailingMarks(r.step);
      FailingMarks(q.step);
    } else if !r.NotFound? && !q.NotFound? {
      assert w[11] == Before(r)[11] == Before(q)[11];
      if !r.AlreadyExists? && !r.NoPty? {
        assert w[|w| - 1] == After(r)[|After(r)| - 1] == After(q)[|After(q)| - 1];
      }
    }
  }

  /** Why a request is refused, if it is. `failed`: the step at which opening a terminal failed. */
  function Refused(cs: seq<Connection>, req: Request, pty: Option<Utf8>, failed: PtyStep, reply: nat -> Option<C.Reply>): Option<Refusal> {
    match req
    case Add(name, _, _) => if Exists(cs, name) then Some(AlreadyExists) else if pty.None? then Some(NoPty(failed)) else None
    case Remove(name) => if Exists(cs, name) then None else Some(NotFound)
    case List => None
    case Reset(name) => if Exists(cs, name) then ResetRefused(reply(cs[Find(cs, name)].task)) else Some(NotFound)
  }

  /** What came of asking the connection. */
  function ResetRefused(r: Option<C.Reply>): Option<Refusal> {
    match r
    case Some(Answer(Done)) => None
    case Some(Answer(NotSupported)) => Some(NotSupported)
    case Some(_) => Some(Unavailable)
    case None => Some(NotFound)
  }

  function InfoOf(c: Connection, status: nat -> bool): Info { Info(c.name, c.addr, c.port, c.ptsPath, status(c.task)) }

  function Granted(cs: seq<Connection>, req: Request, pty: Option<Utf8>, status: nat -> bool): Response {
    match req
    case Add(_, _, _) => AddOk(if pty.Some? then pty.value else [])
    case Remove(_) => RemoveOk
    case List => Listing(seq(|cs|, i requires 0 <= i < |cs| => InfoOf(cs[i], status)))
    case Reset(_) => ResetOk
  }

  /** The name a request is about. */
  function NameOf(req: Request): Utf8 {
    match req
    case Add(name, _, _) => name
    case Remove(name) => name
    case List => []
    case Reset(name) => name
  }

  function Respond(cs: seq<Connection>, req: Request, pty: Option<Utf8>, failed: PtyStep, status: nat -> bool,
                   reply: nat -> Option<C.Reply>): Response {
    var refused := Refused(cs, req, pty, failed, reply);
    if refused.Some? then Error(Wording(refused.value, NameOf(req))) else Granted(cs, req, pty, status)
  }

  lemma OnlyOneOfTheName(cs: seq<Connection>, name: Utf8)
    requires Distinct(cs)
    ensures forall c :: c in cs && c.name == name ==> Exists(cs, name) && c == cs[Find(cs, name)]
  {
    forall c | c in cs && c.name == name
      ensures Exists(cs, name) && c == cs[Find(cs, name)]
    {
      var i :| 0 <= i < |cs| && cs[i] == c;
      assert i == Find(cs, name);
    }
  }

  /** The connection a request is about: none, or the only one of that name, here `c`. */
  predicate About(cs: seq<Connection>, req: Request, c: Connection) { c in cs && c.name == NameOf(req) }

  /** Each refusal, by what brings it about. */
  lemma WhyRefused(cs: seq<Connection>, req: Request, pty: Option<Utf8>, failed: PtyStep, reply: nat -> Option<C.Reply>)
    requires Distinct(cs)
    ensures var r := Refused(cs, req, pty, failed, reply);
            && (r == Some(AlreadyExists) <==> req.Add? && exists c :: About(cs, req, c))
            && (forall p :: r == Some(NoPty(p)) <==>
                  req.Add? && p == failed && pty == None && forall c :: !About(cs, req, c))
            && (r == Some(NotFound) <==>
                  || ((req.Remove? || req.Reset?) && forall c :: !About(cs, req, c))
                  || (req.Reset? && exists c :: About(cs, req, c) && reply(c.task) == None))
            && (r == Some(NotSupported) <==>
                  req.Reset? && exists c :: About(cs, req, c) && reply(c.task) == Some(C.Answer(D.NotSupported)))
            && (r == Some(Unavailable) <==>
                  req.Reset? && exists c :: About(cs, req, c) && reply(c.task).Some? && !reply(c.task).value.Answer?)
  {
    hide Distinct, Find;
    var name := NameOf(req);
    if Exists(cs, name) {
      OnlyOneOfTheName(cs, name);
      assert About(cs, req, cs[Find(cs, name)]);
    }
  }

  /** What the handler does, in the words of the request. */
  lemma WhatHandlingDoes(cs: seq<Connection>, req: Request, pty: Option<Utf8>, failed: PtyStep, next: nat, status: nat -> bool,
                         reply: nat -> Option<C.Reply>)
    ensures var o, resp := Handled(cs, req, pty, next), Respond(cs, req, pty, failed, status, reply);
            && (req.Add? && pty.Some? ==> (resp == AddOk(pty.value) <==> forall c <- cs :: c.name != req.name))
            && (req.Add? && resp.AddOk? ==>
                  && pty.Some?
                  && o == Outcome(cs + [Connection(req.name, req.addr, req.port, pty.value, next)], Some(req.name), None))
            && (req.Remove? ==> (resp == RemoveOk <==> exists c <- cs :: c.name == req.name))
            && (req.Remove? && resp.RemoveOk? && Distinct(cs) ==>
                  && (forall c :: c in o.conns <==> c in cs && c.name != req.name)
                  && (exists c <- cs :: c.name == req.name && o.stopped == Some(c.task)))
            && (resp.Error? || req.List? || req.Reset? ==> o == Outcome(cs, None, None))
            && (req.List? ==>
                  && resp.Listing? && |resp.conns| == |cs|
                  && forall i :: 0 <= i < |cs| ==>
                       resp.conns[i] == Info(cs[i].name, cs[i].addr, cs[i].port, cs[i].ptsPath, status(cs[i].task)))
            && (req.Reset? && Distinct(cs) ==>
                  (resp == ResetOk <==> exists c <- cs :: c.name == req.name && reply(c.task) == Some(C.Answer(D.Done))))
  {
    hide Wording, SwapRemove, Distinct, Find;
    var name := NameOf(req);
    if Distinct(cs) {
      OnlyOneOfTheName(cs, name);
    }
    if Exists(cs, name) {
      assert cs[Find(cs, name)] in cs && cs[Find(cs, name)].name == name;
      if Distinct(cs) {
        SwapRemoveFromDistinct(cs, Find(cs, name));
      }
    }
  }

  /** The request handler. */
  method HandleDaemonRequest(state: State, req: Request, pty: Option<Utf8>, failed: PtyStep, next: nat, status: nat -> bool,
                             reply: nat -> Option<C.Reply>)
    returns (resp: Response, spawned: Option<Utf8>, stopped: Option<nat>)
    modifies state
    ensures Outcome(state.conns, spawned, stopped) == Handled(old(state.conns), req, pty, next)
    ensures resp == Respond(old(state.conns), req, pty, failed, status, reply)
    ensures req.Add? && pty.Some? ==> (resp == AddOk(pty.value) <==> forall c <- old(state.conns) :: c.name != req.name)
    ensures req.Add? && resp.AddOk? ==>
              && pty.Some? && spawned == Some(req.name) && stopped == None
              && state.conns == old(state.conns) + [Connection(req.name, req.addr, req.port, pty.value, next)]
    ensures req.Remove? ==> (resp == RemoveOk <==> exists c <- old(state.conns) :: c.name == req.name)
    ensures req.Remove? && resp.RemoveOk? && Distinct(old(state.conns)) ==>
              && (forall c :: c in state.conns <==> c in old(state.conns) && c.name != req.name)
              && (exists c <- old(state.conns) :: c.name == req.name && stopped == Some(c.task))
    ensures resp.Error? || req.List? || req.Reset? ==>
              state.conns == old(state.conns) && spawned == None && stopped == None
    ensures req.List? ==>
              && resp.Listing? && |resp.conns| == |state.conns|
              && forall i :: 0 <= i < |state.conns| ==>
                   var c := state.conns[i];
                   resp.conns[i] == Info(c.name, c.addr, c.port, c.ptsPath, status(c.task))
    ensures req.Reset? && Distinct(state.conns) ==>
              (resp == ResetOk <==>
               exists c <- state.conns :: c.name == req.name && reply(c.task) == Some(C.Answer(D.Done)))
  {
    hide Wording, Find, SwapRemove, Distinct;
    ghost var cs := state.conns;
    WhatHandlingDoes(cs, req, pty, failed, next, status, reply);
    spawned, stopped := None, None;
    match req {
      case Add(name, addr, port) =>
        var found := state.Exists(name);
        if found {
          resp := Error(Wording(AlreadyExists, name));
        } else if pty.None? {
          resp := Error(Wording(NoPty(failed), name));
        } else {
          state.Add(Connection(name, addr, port, pty.value, next));
          resp, spawned := AddOk(pty.value), Some(name);
        }
      case Remove(name) =>
        stopped := state.Remove(name);
        resp := if stopped.Some? then RemoveOk else Error(Wording(NotFound, name));
      case List =>
        var list := state.List(status);
        resp := Listing(list);
      case Reset(name) =>
        var r := state.SendHardwareCtl(name, reply);
        match r {
          case Some(Answer(Done)) => resp := ResetOk;
          case Some(Answer(NotSupported)) => resp := Error(Wording(NotSupported, name));
          case Some(_) => resp := Error(Wording(Unavailable, name));
          case None => resp := Error(Wording(NotFound, name));
        }
    }
    assert Outcome(state.conns, spawned, stopped) == Handled(cs, req, pty, next);
    assert resp == Respond(cs, req, pty, failed, status, reply);
    hide Handled, Respond, Wording;
  }
}
