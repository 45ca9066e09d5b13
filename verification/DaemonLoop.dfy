/**
  The daemon's event loop (daemon/src/main.rs) and the connection tasks it spawns, as a machine
  whose steps interleave: client handlers submit requests, tasks stop and announce it by name, and
  the loop takes one event at a time, waiting for replies inline.
 */
module DaemonLoop {
  import opened Bytes
  import opened Utf8
  import opened ControlCodec
  import opened Registry

  const EVENT_QUEUE_DEPTH := 128

  /** `Closing`: `shutdown` is waiting for room in the event queue. */
  datatype Phase = Running | Closing | Exited

  datatype Worker = Worker(name: Utf8, phase: Phase, signalled: bool)

  /** A farewell carries only the name; `from` is bookkeeping. */
  datatype Event = Command(req: Request) | Closed(name: Utf8, from: nat)

  /** What the loop waits for. `held`: the task has taken the request and keeps it open. */
  datatype Main = Ready | Polling(task: nat, rest: seq<nat>) | Controlling(task: nat, held: bool)

  datatype Daemon = Daemon(conns: seq<Connection>, workers: seq<Worker>, queue: seq<Event>, main: Main)

  const Start := Daemon([], [], [], Ready)

  datatype Act =
    | Submit(req: Request)
    | Take(pty: Option<Utf8>)
    | Hold
    | Answer
    | FindGone
    | Stop(k: nat)
    | Announce(k: nat)

  function Phases(d: Daemon, k: nat): Phase { if k < |d.workers| then d.workers[k].phase else Exited }

  /** Requests come from a decoder, whose texts have at most 255 bytes, and so do the paths of terminals. */
  predicate Can(d: Daemon, a: Act) {
    match a
    case Submit(req) => |d.queue| < EVENT_QUEUE_DEPTH && RequestFits(req)
    case Take(pty) => d.main.Ready? && d.queue != [] && (pty.Some? ==> |pty.value| <= 255)
    case Hold => d.main.Controlling? && !d.main.held && Phases(d, d.main.task).Running?
    case Answer => !d.main.Ready? && Phases(d, d.main.task).Running?
    case FindGone => !d.main.Ready? && Phases(d, d.main.task).Exited?
    case Stop(k) => Phases(d, k).Running?
    case Announce(k) => Phases(d, k).Closing? && |d.queue| < EVENT_QUEUE_DEPTH
  }

  /** The loop goes on to the next connection of a listing, or is done. */
  function Resume(m: Main): Main {
    if m.Polling? && m.rest != [] then Polling(m.rest[0], m.rest[1..]) else Ready
  }

  function Tasks(cs: seq<Connection>): seq<nat> {
    if cs == [] then [] else [cs[0].task] + Tasks(cs[1..])
  }

  /** A request that needs replies from tasks. */
  function Asks(cs: seq<Connection>, req: Request): Main {
    match req
    case List => if cs == [] then Ready else Polling(Tasks(cs)[0], Tasks(cs)[1..])
    case Reset(name) => if Exists(cs, name) then Controlling(cs[Find(cs, name)].task, false) else Ready
    case _ => Ready
  }

  function Signal(ws: seq<Worker>, stopped: Option<nat>): seq<Worker> {
    if stopped.Some? && stopped.value < |ws| then ws[stopped.value := ws[stopped.value].(signalled := true)] else ws
  }

  function Spawn(ws: seq<Worker>, spawned: Option<Utf8>): seq<Worker> {
    if spawned.Some? then ws + [Worker(spawned.value, Running, false)] else ws
  }

  function Apply(d: Daemon, o: Outcome): Daemon {
    d.(conns := o.conns, workers := Spawn(Signal(d.workers, o.stopped), o.spawned))
  }

  function Process(d: Daemon, e: Event, pty: Option<Utf8>): Daemon {
    match e
    case Command(req) => Apply(d, Handled(d.conns, req, pty, |d.workers|)).(main := Asks(d.conns, req))
    case Closed(name, _) => Apply(d, Removed(d.conns, name))
  }

  function SetPhase(ws: seq<Worker>, k: nat, p: Phase): seq<Worker>
    requires k < |ws|
  {
    ws[k := ws[k].(phase := p)]
  }

  /** A task that stops refuses the request it holds. */
  function Do(d: Daemon, a: Act): Daemon
    requires Can(d, a)
  {
    match a
    case Submit(req) => d.(queue := d.queue + [Command(req)])
    case Take(pty) => Process(d.(queue := d.queue[1..]), d.queue[0], pty)
    case Hold => d.(main := d.main.(held := true))
    case Answer => d.(main := Resume(d.main))
    case FindGone => d.(main := Resume(d.main))
    case Stop(k) =>
      d.(workers := SetPhase(d.workers, k, Closing),
         main := if d.main == Controlling(k, true) then Ready else d.main)
    case Announce(k) => d.(workers := SetPhase(d.workers, k, Exited), queue := d.queue + [Closed(d.workers[k].name, k)])
  }

  function Exec(d: Daemon, acts: seq<Act>): Option<Daemon>
    decreases |acts|
  {
    if acts == [] then Some(d)
    else
      match Exec(d, acts[..|acts| - 1])
      case None => None
      case Some(s) => if Can(s, acts[|acts| - 1]) then Some(Do(s, acts[|acts| - 1])) else None
  }

  ghost predicate Reachable(d: Daemon) {
    exists acts :: Exec(Start, acts) == Some(d)
  }

  // ---------------------------------------------------------------- the invariant

  predicate Registered(d: Daemon, k: nat) { exists c :: c in d.conns && c.task == k }

  /** A farewell of that task is in the queue. */
  predicate Announced(q: seq<Event>, k: nat) { exists e :: e in q && e.Closed? && e.from == k }

  /** Names and tasks match, and a task is in the registry or has been told to stop. */
  predicate RegistryInv(d: Daemon) {
    && Distinct(d.conns)
    && (forall c :: c in d.conns ==> c.task < |d.workers| && d.workers[c.task].name == c.name)
    && (forall k :: 0 <= k < |d.workers| ==> (Registered(d, k) <==> !d.workers[k].signalled))
  }

  /** Farewells come from tasks that have exited, one from each. */
  predicate QueueInv(d: Daemon) {
    && |d.queue| <= EVENT_QUEUE_DEPTH
    && (forall e :: e in d.queue && e.Closed? ==> e.from < |d.workers|)
    && (forall e :: e in d.queue && e.Closed? ==> d.workers[e.from].phase.Exited? && d.workers[e.from].name == e.name)
    && (forall i, j :: 0 <= i < j < |d.queue| && d.queue[i].Closed? && d.queue[j].Closed? ==>
          d.queue[i].from != d.queue[j].from)
  }

  /** No entry outlives its task without the farewell that will remove it. */
  predicate NoZombies(d: Daemon) {
    forall k :: 0 <= k < |d.workers| && d.workers[k].phase.Exited? && Registered(d, k) ==> Announced(d.queue, k)
  }

  /** The loop only waits for tasks there are, and a request is only held by a running one. */
  predicate MainInv(d: Daemon) {
    match d.main
    case Ready => true
    case Polling(k, rest) => k < |d.workers| && forall j :: j in rest ==> j < |d.workers|
    case Controlling(k, held) => k < |d.workers| && (held ==> d.workers[k].phase.Running?)
  }

  predicate Inv(d: Daemon) { RegistryInv(d) && QueueInv(d) && NoZombies(d) && MainInv(d) }

  lemma RemovedKeepsOthers(cs: seq<Connection>, name: Utf8)
    requires Distinct(cs)
    ensures var o := Removed(cs, name);
            && Distinct(o.conns) && o.spawned == None
            && (forall c :: c in o.conns <==> c in cs && c.name != name)
            && (o.stopped == None ==> forall c :: c in cs ==> c.name != name)
            && (o.stopped.Some? ==> exists c :: c in cs && c.name == name && c.task == o.stopped.value)
  {
    hide SwapRemove;
    var i := Find(cs, name);
    if i < |cs| {
      SwapRemoveFromDistinct(cs, i);
      assert cs[i] in cs;
    }
  }

  /** The tasks are those they were, up to who has been told to stop. */
  predicate SameTasks(ws: seq<Worker>, us: seq<Worker>) {
    && |us| == |ws|
    && forall k :: 0 <= k < |ws| ==> us[k].phase == ws[k].phase && us[k].name == ws[k].name
  }

  /** What removing a name does, whatever asked for it. */
  lemma RemovalStep(d: Daemon, name: Utf8)
    requires RegistryInv(d)
    ensures var t := Apply(d, Removed(d.conns, name));
            && RegistryInv(t) && SameTasks(d.workers, t.workers)
            && (forall k :: 0 <= k < |d.workers| ==> (Registered(t, k) <==> Registered(d, k) && d.workers[k].name != name))
  {
    hide Removed, Distinct;
    RemovedKeepsOthers(d.conns, name);
    var t, o := Apply(d, Removed(d.conns, name)), Removed(d.conns, name);
    forall k | 0 <= k < |d.workers|
      ensures Registered(t, k) <==> Registered(d, k) && d.workers[k].name != name
      ensures Registered(t, k) <==> !t.workers[k].signalled
    {
      StaysRegistered(d, t, k, name);
      if Registered(d, k) && d.workers[k].name == name {
        var c :| c in d.conns && c.task == k;
        SameEntry(d, name, k, o.stopped.value);
      }
    }
  }

  lemma StaysRegistered(d: Daemon, t: Daemon, k: nat, name: Utf8)
    requires RegistryInv(d) && k < |d.workers| && forall c :: c in t.conns <==> c in d.conns && c.name != name
    ensures Registered(t, k) <==> Registered(d, k) && d.workers[k].name != name
  {
    hide Distinct;
    if Registered(d, k) && d.workers[k].name != name {
      var c :| c in d.conns && c.task == k;
      assert c in t.conns;
    }
  }

  /** One name, one task. */
  lemma SameEntry(d: Daemon, name: Utf8, j: nat, k: nat)
    requires RegistryInv(d) && j < |d.workers| && k < |d.workers| && Registered(d, j) && Registered(d, k)
    requires d.workers[j].name == name == d.workers[k].name
    ensures j == k
  {
    var b :| b in d.conns && b.task == j;
    var c :| c in d.conns && c.task == k;
    var x :| 0 <= x < |d.conns| && d.conns[x] == b;
    var y :| 0 <= y < |d.conns| && d.conns[y] == c;
    assert x == y;
  }

  lemma AddStep(d: Daemon, c: Connection)
    requires RegistryInv(d) && c.task == |d.workers| && !Exists(d.conns, c.name)
    ensures var t := Apply(d, Outcome(d.conns + [c], Some(c.name), None));
            && RegistryInv(t) && t.workers == d.workers + [Worker(c.name, Running, false)]
            && forall k :: 0 <= k < |d.workers| ==> (Registered(t, k) <==> Registered(d, k))
  {
    var t := Apply(d, Outcome(d.conns + [c], Some(c.name), None));
    assert t.conns[|d.conns|] == c;
    assert c in t.conns && Registered(t, c.task);
    forall k | 0 <= k < |d.workers|
      ensures Registered(t, k) <==> Registered(d, k)
    {
      if Registered(d, k) {
        var b :| b in d.conns && b.task == k;
        assert b in t.conns;
      }
    }
  }

  predicate HeadAnnounces(d: Daemon, k: nat) { d.queue != [] && d.queue[0].Closed? && d.queue[0].from == k }

  /** The head of the queue is gone, and no more. */
  lemma PopStep(d: Daemon)
    requires QueueInv(d) && d.queue != []
    ensures QueueInv(d.(queue := d.queue[1..]))
    ensures forall k :: Announced(d.queue[1..], k) <==> Announced(d.queue, k) && !HeadAnnounces(d, k)
  {
    forall k
      ensures Announced(d.queue[1..], k) <==> Announced(d.queue, k) && !HeadAnnounces(d, k)
    {
      if Announced(d.queue, k) && !HeadAnnounces(d, k) {
        var e :| e in d.queue && e.Closed? && e.from == k;
        assert e in d.queue[1..];
      }
    }
  }

  lemma {:induction false} TasksOfEntries(cs: seq<Connection>)
    ensures |Tasks(cs)| == |cs|
    ensures forall k :: k in Tasks(cs) <==> exists c :: c in cs && c.task == k
  {
    if cs != [] {
      TasksOfEntries(cs[1..]);
      assert cs == [cs[0]] + cs[1..];
    }
  }

  lemma AsksOfTasks(d: Daemon, req: Request)
    requires RegistryInv(d)
    ensures MainInv(d.(main := Asks(d.conns, req)))
  {
    hide Find;
    TasksOfEntries(d.conns);
    if req.List? && d.conns != [] {
      assert Tasks(d.conns)[0] in Tasks(d.conns);
      assert forall k :: k in Tasks(d.conns)[1..] ==> k in Tasks(d.conns);
    } else if req.Reset? && Exists(d.conns, req.name) {
      assert d.conns[Find(d.conns, req.name)] in d.conns;
    }
  }

  /** Taking an event, by what it does to the registry. */
  lemma TakeFarewell(d: Daemon, pty: Option<Utf8>)
    requires Inv(d) && Can(d, Take(pty)) && d.queue[0].Closed?
    ensures Inv(Do(d, Take(pty)))
  {
    hide Distinct, Removed, Signal;
    PopStep(d);
    RemovalStep(d.(queue := d.queue[1..]), d.queue[0].name);
  }

  lemma TakeRemove(d: Daemon, pty: Option<Utf8>)
    requires Inv(d) && Can(d, Take(pty)) && d.queue[0].Command? && d.queue[0].req.Remove?
    ensures Inv(Do(d, Take(pty)))
  {
    hide Distinct, Removed, Signal;
    PopStep(d);
    RemovalStep(d.(queue := d.queue[1..]), d.queue[0].req.name);
  }

  lemma TakeAdd(d: Daemon, pty: Option<Utf8>)
    requires Inv(d) && Can(d, Take(pty)) && d.queue[0].Command? && d.queue[0].req.Add?
    ensures Inv(Do(d, Take(pty)))
  {
    hide Distinct, Find;
    PopStep(d);
    var r := d.queue[0].req;
    if !Exists(d.conns, r.name) && pty.Some? {
      AddStep(d.(queue := d.queue[1..]), Connection(r.name, r.addr, r.port, pty.value, |d.workers|));
    }
    var t := Do(d, Take(pty));
    assert RegistryInv(t);
    assert QueueInv(t);
    assert NoZombies(t);
  }

  lemma TakeQuery(d: Daemon, pty: Option<Utf8>)
    requires Inv(d) && Can(d, Take(pty)) && d.queue[0].Command? && (d.queue[0].req.List? || d.queue[0].req.Reset?)
    ensures Inv(Do(d, Take(pty)))
  {
    hide Distinct, Find, Asks;
    PopStep(d);
    AsksOfTasks(d, d.queue[0].req);
  }

  /** Steps that leave the registry alone. */
  lemma QuietStep(d: Daemon, a: Act)
    requires Inv(d) && Can(d, a) && !a.Take? && !a.Announce?
    ensures Inv(Do(d, a))
  {
    hide Distinct;
    var t := Do(d, a);
    assert forall k :: Registered(t, k) <==> Registered(d, k);
    if a.Submit? {
      assert forall k :: Announced(d.queue, k) ==> Announced(t.queue, k);
    }
    assert RegistryInv(t);
    assert QueueInv(t);
    assert NoZombies(t);
    if d.main.Polling? && d.main.rest != [] {
      assert d.main.rest[0] in d.main.rest;
      assert forall j :: j in d.main.rest[1..] ==> j in d.main.rest;
    }
    assert MainInv(t);
  }

  lemma AnnounceStep(d: Daemon, k: nat)
    requires Inv(d) && Can(d, Announce(k))
    ensures Inv(Do(d, Announce(k)))
  {
    hide Distinct;
    var t := Do(d, Announce(k));
    assert forall j :: Registered(t, j) <==> Registered(d, j);
    assert Closed(d.workers[k].name, k) in t.queue && Announced(t.queue, k);
    assert forall j :: Announced(d.queue, j) ==> Announced(t.queue, j);
  }

  lemma InvStep(d: Daemon, a: Act)
    requires Inv(d) && Can(d, a)
    ensures Inv(Do(d, a))
  {
    hide Inv, Do;
    match a {
      case Take(pty) =>
        match d.queue[0] {
          case Closed(_, _) => TakeFarewell(d, pty);
          case Command(Add(_, _, _)) => TakeAdd(d, pty);
          case Command(Remove(_)) => TakeRemove(d, pty);
          case Command(List) => TakeQuery(d, pty);
          case Command(Reset(_)) => TakeQuery(d, pty);
        }
      case Announce(k) => AnnounceStep(d, k);
      case Submit(_) => QuietStep(d, a);
      case Hold => QuietStep(d, a);
      case Answer => QuietStep(d, a);
      case FindGone => QuietStep(d, a);
      case Stop(_) => QuietStep(d, a);
    }
  }

  lemma {:induction false} InvOverRuns(d: Daemon, acts: seq<Act>)
    requires Inv(d) && Exec(d, acts).Some?
    ensures Inv(Exec(d, acts).value)
    decreases |acts|
  {
    hide Inv, Can, Do;
    if acts != [] {
      InvOverRuns(d, acts[..|acts| - 1]);
      InvStep(Exec(d, acts[..|acts| - 1]).value, acts[|acts| - 1]);
    }
  }

  lemma ReachableInv(d: Daemon)
    requires Reachable(d)
    ensures Inv(d)
  {
    hide Inv;
    var acts :| Exec(Start, acts) == Some(d);
    InvAtStart();
    InvOverRuns(Start, acts);
  }

  lemma InvAtStart()
    ensures Inv(Start)
  {
  }

  /** In every state the daemon can reach. */
  lemma RegistryOverRuns(d: Daemon)
    requires Reachable(d)
    ensures Distinct(d.conns) && |d.queue| <= 128
    ensures forall k :: 0 <= k < |d.workers| && !d.workers[k].phase.Exited? ==> Registered(d, k) || d.workers[k].signalled
    ensures forall c :: c in d.conns && Phases(d, c.task).Exited? ==> Closed(c.name, c.task) in d.queue
  {
    ReachableInv(d);
    hide Exec;
    forall c | c in d.conns && Phases(d, c.task).Exited?
      ensures Closed(c.name, c.task) in d.queue
    {
      assert Registered(d, c.task);
      var e :| e in d.queue && e.Closed? && e.from == c.task;
    }
  }
}
