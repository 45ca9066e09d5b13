/** Which entries leave the registry and why, and when the event loop waits for a reply in vain. */
module DaemonRuns {
  import opened Bytes
  import opened Utf8
  import opened ControlCodec
  import opened Registry
  import opened DaemonLoop

  // ---------------------------------------------------------------- removals

  /** The name an event removes, if it removes any. */
  function RemovedName(e: Event): Option<Utf8> {
    match e
    case Command(Remove(name)) => Some(name)
    case Closed(name, _) => Some(name)
    case _ => None
  }

  /** Every removal takes one entry, of that name, tells its task to stop, and keeps all others. */
  lemma RemovalTakesOne(d: Daemon, pty: Option<Utf8>, name: Utf8)
    requires Can(d, Take(pty)) && RemovedName(d.queue[0]) == Some(name) && Exists(d.conns, name)
    ensures var t := Do(d, Take(pty));
            exists c :: c in d.conns && c.name == name && multiset(t.conns) == multiset(d.conns) - multiset{c}
                        && t.workers == Signal(d.workers, Some(c.task))
  {
    hide SwapRemove, Signal;
    var i := Find(d.conns, name);
    SwapRemoveKeepsOthers(d.conns, i);
    assert d.conns[i] in d.conns;
  }

  /** And nothing else makes an entry leave. */
  lemma EntriesLeaveByName(d: Daemon, a: Act, c: Connection)
    requires Inv(d) && Can(d, a) && c in d.conns
    ensures c in Do(d, a).conns || (a.Take? && RemovedName(d.queue[0]) == Some(c.name))
  {
    hide Find, Signal, Spawn, Asks, Distinct;
    if a.Take? {
      match d.queue[0] {
        case Closed(name, _) => RemovedKeepsOthers(d.conns, name);
        case Command(Remove(name)) => RemovedKeepsOthers(d.conns, name);
        case Command(Add(_, _, _)) =>
        case Command(List) =>
        case Command(Reset(_)) =>
      }
    }
  }

  /**
    A farewell spares every entry but its sender's exactly when the sender still has its entry, or
    no entry bears the name.
   */
  lemma FarewellHitsItsOwnIff(d: Daemon, pty: Option<Utf8>)
    requires Inv(d) && Can(d, Take(pty)) && d.queue[0].Closed?
    ensures var e, t := d.queue[0], Do(d, Take(pty));
            (forall c :: c in d.conns && c.task != e.from ==> c in t.conns)
            <==> (Registered(d, e.from) || !Exists(d.conns, e.name))
  {
    hide Find, SwapRemove, Signal, Spawn, Distinct;
    var e, t := d.queue[0], Do(d, Take(pty));
    RemovedKeepsOthers(d.conns, e.name);
    if Registered(d, e.from) {
      forall c | c in d.conns && c.task != e.from
        ensures c in t.conns
      {
        if c.name == e.name {
          assert Registered(d, c.task);
          SameEntry(d, e.name, c.task, e.from);
        }
      }
    } else if Exists(d.conns, e.name) {
      var c :| c in d.conns && c.name == e.name;
      assert c.task != e.from && c !in t.conns;
    }
  }

  /** Every other task of that name is done, farewell and all. */
  predicate Alone(d: Daemon, k: nat)
    requires k < |d.workers|
  {
    forall j :: 0 <= j < |d.workers| && j != k && d.workers[j].name == d.workers[k].name ==>
      d.workers[j].phase.Exited? && !Announced(d.queue, j)
  }

  /** The same, before there is a task of that name to be added. */
  predicate NameIsFree(d: Daemon, name: Utf8) {
    forall j :: 0 <= j < |d.workers| && d.workers[j].name == name ==> d.workers[j].phase.Exited? && !Announced(d.queue, j)
  }

  predicate TakesAdd(d: Daemon, a: Act, name: Utf8) {
    Can(d, a) && a.Take? && a.pty.Some? && d.queue[0].Command? && d.queue[0].req.Add? && d.queue[0].req.name == name
  }

  lemma AddedAlone(d: Daemon, a: Act, name: Utf8)
    requires Inv(d) && TakesAdd(d, a, name) && !Exists(d.conns, name) && NameIsFree(d, name)
    ensures var t, k := Do(d, a), |d.workers|;
            |t.workers| == k + 1 && t.workers[k].name == name && Registered(t, k) && Alone(t, k)
  {
    hide Find, Distinct;
    PopStep(d);
    var t, k := Do(d, a), |d.workers|;
    var c := t.conns[|d.conns|];
    assert c in t.conns && c.task == k;
  }

  /** Why a protected entry may leave: by a user's removal, or because its own task is done. */
  predicate LeavesProperly(d: Daemon, a: Act, k: nat) {
    && k < |d.workers| && a.Take? && d.queue != []
    && (d.queue[0] == Command(Remove(d.workers[k].name))
        || (d.queue[0] == Closed(d.workers[k].name, k) && d.workers[k].phase.Exited?))
  }

  lemma ProtectedFromRemoval(d: Daemon, pty: Option<Utf8>, k: nat)
    requires Inv(d) && Can(d, Take(pty)) && k < |d.workers| && Registered(d, k) && Alone(d, k)
    requires RemovedName(d.queue[0]).Some? && !LeavesProperly(d, Take(pty), k)
    ensures var t := Do(d, Take(pty));
            Registered(t, k) && SameTasks(d.workers, t.workers) && t.queue == d.queue[1..]
  {
    hide Distinct, Removed, Signal;
    var name := RemovedName(d.queue[0]).value;
    if name == d.workers[k].name {
      assert false;
    }
    RemovalStep(d.(queue := d.queue[1..]), name);
  }

  lemma ProtectedFromAdd(d: Daemon, pty: Option<Utf8>, k: nat)
    requires Inv(d) && Can(d, Take(pty)) && k < |d.workers| && Registered(d, k) && Alone(d, k)
    requires d.queue[0].Command? && d.queue[0].req.Add?
    ensures var t := Do(d, Take(pty));
            && Registered(t, k) && |t.workers| >= |d.workers| && SameTasks(d.workers, t.workers[..|d.workers|])
            && t.queue == d.queue[1..]
            && forall j :: |d.workers| <= j < |t.workers| ==> t.workers[j].name != d.workers[k].name
  {
    hide Distinct, Find;
    var r := d.queue[0].req;
    var b :| b in d.conns && b.task == k;
    if !Exists(d.conns, r.name) && pty.Some? {
      AddStep(d.(queue := d.queue[1..]), Connection(r.name, r.addr, r.port, pty.value, |d.workers|));
      assert b.name != r.name;
    }
    assert b in Do(d, Take(pty)).conns;
  }

  lemma ProtectedFromTake(d: Daemon, pty: Option<Utf8>, k: nat)
    requires Inv(d) && Can(d, Take(pty)) && k < |d.workers| && Registered(d, k) && Alone(d, k)
    requires !LeavesProperly(d, Take(pty), k)
    ensures var t := Do(d, Take(pty));
            k < |t.workers| && t.workers[k].name == d.workers[k].name && Registered(t, k) && Alone(t, k)
  {
    hide Distinct, Find, Handled, Removed, Signal;
    PopStep(d);
    if RemovedName(d.queue[0]).Some? {
      ProtectedFromRemoval(d, pty, k);
    } else if d.queue[0].req.Add? {
      ProtectedFromAdd(d, pty, k);
    } else {
      QueryKeepsAll(d, pty);
    }
  }

  lemma QueryKeepsAll(d: Daemon, pty: Option<Utf8>)
    requires Can(d, Take(pty)) && d.queue[0].Command? && (d.queue[0].req.List? || d.queue[0].req.Reset?)
    ensures Do(d, Take(pty)) == d.(queue := d.queue[1..], main := Asks(d.conns, d.queue[0].req))
  {
    hide Asks;
  }

  lemma ProtectedStep(d: Daemon, a: Act, k: nat)
    requires Inv(d) && Can(d, a) && k < |d.workers| && Registered(d, k) && Alone(d, k) && !LeavesProperly(d, a, k)
    ensures var t := Do(d, a);
            k < |t.workers| && t.workers[k].name == d.workers[k].name && Registered(t, k) && Alone(t, k)
  {
    hide Distinct, LeavesProperly;
    if a.Take? {
      ProtectedFromTake(d, a.pty, k);
    } else {
      var t := Do(d, a);
      assert forall j :: Registered(t, j) <==> Registered(d, j);
      assert forall j :: Announced(t.queue, j) ==> Announced(d.queue, j) || a == Announce(j);
    }
  }

  /** Some step of the run removes the entry for a proper reason. */
  ghost predicate LeftProperly(d: Daemon, acts: seq<Act>, k: nat) {
    exists i :: 0 <= i < |acts| && Exec(d, acts[..i]).Some? && LeavesProperly(Exec(d, acts[..i]).value, acts[i], k)
  }

  lemma {:induction false} ProtectedOverRuns(d: Daemon, acts: seq<Act>, k: nat)
    requires Inv(d) && k < |d.workers| && Registered(d, k) && Alone(d, k) && Exec(d, acts).Some?
    ensures var t := Exec(d, acts).value;
            || LeftProperly(d, acts, k)
            || (Inv(t) && k < |t.workers| && t.workers[k].name == d.workers[k].name && Registered(t, k) && Alone(t, k))
    decreases |acts|
  {
    hide Inv, Can, Do, LeavesProperly, Registered, Alone;
    if acts != [] {
      var n := |acts| - 1;
      ProtectedOverRuns(d, acts[..n], k);
      if LeftProperly(d, acts[..n], k) {
        var i :| 0 <= i < n && Exec(d, acts[..n][..i]).Some? && LeavesProperly(Exec(d, acts[..n][..i]).value, acts[..n][i], k);
        assert acts[..n][..i] == acts[..i];
      } else {
        var s := Exec(d, acts[..n]).value;
        if !LeavesProperly(s, acts[n], k) {
          ProtectedStep(s, acts[n], k);
          InvStep(s, acts[n]);
        }
      }
    }
  }

  /**
    An entry added when every older task of its name is done and its farewell taken stays until a
    user removes that name or its own task is done, whatever else happens.
   */
  lemma AddedEntryIsSafe(d: Daemon, add: Act, after: seq<Act>, name: Utf8)
    requires Reachable(d) && TakesAdd(d, add, name) && !Exists(d.conns, name) && NameIsFree(d, name)
    requires Exec(Do(d, add), after).Some?
    ensures var k, t := |d.workers|, Do(d, add);
            Registered(Exec(t, after).value, k) || LeftProperly(t, after, k)
  {
    hide Do, Can, Reachable, Registered, Alone, NameIsFree, Exists, TakesAdd, LeftProperly;
    ReachableInv(d);
    AddedAlone(d, add, name);
    CanOfTakesAdd(d, add, name);
    InvStep(d, add);
    ProtectedOverRuns(Do(d, add), after, |d.workers|);
  }

  lemma CanOfTakesAdd(d: Daemon, a: Act, name: Utf8)
    requires TakesAdd(d, a, name)
    ensures Can(d, a)
  {
  }

  // ---------------------------------------------------------------- waiting in vain

  /** Which reply the loop waits for: from whom, and with how many connections left to ask. */
  function Question(m: Main): Option<(nat, nat)> {
    match m
    case Ready => None
    case Polling(k, rest) => Some((k, |rest|))
    case Controlling(k, _) => Some((k, 0))
  }

  /** The task asked waits for room in the event queue, which only the loop could make. */
  predicate Stuck(d: Daemon) {
    !d.main.Ready? && Phases(d, d.main.task).Closing? && |d.queue| == EVENT_QUEUE_DEPTH
  }

  ghost predicate NeverAnswered(d: Daemon) {
    forall acts :: Exec(d, acts).Some? ==> Question(Exec(d, acts).value.main) == Question(d.main)
  }

  lemma {:induction false} StuckOverRuns(d: Daemon, acts: seq<Act>)
    requires Stuck(d) && Exec(d, acts).Some?
    ensures Stuck(Exec(d, acts).value) && Question(Exec(d, acts).value.main) == Question(d.main)
    decreases |acts|
  {
    hide Process;
    if acts != [] {
      StuckOverRuns(d, acts[..|acts| - 1]);
    }
  }

  lemma ExecSnoc(d: Daemon, acts: seq<Act>, a: Act)
    requires Exec(d, acts).Some? && Can(Exec(d, acts).value, a)
    ensures Exec(d, acts + [a]) == Some(Do(Exec(d, acts).value, a))
  {
    hide Can, Do;
    assert (acts + [a])[..|acts|] == acts;
  }

  /** The loop waits in vain exactly when the task it asked is closing over a full event queue. */
  lemma NeverAnsweredIffStuck(d: Daemon)
    requires Inv(d) && !d.main.Ready?
    ensures NeverAnswered(d) <==> Stuck(d)
  {
    hide RegistryInv, NoZombies, MainInv, Process;
    if Stuck(d) {
      forall acts | Exec(d, acts).Some?
        ensures Question(Exec(d, acts).value.main) == Question(d.main)
      {
        StuckOverRuns(d, acts);
      }
    } else {
      var acts := CanProceed(d);
    }
  }

  lemma ExecOne(d: Daemon, a: Act)
    requires Can(d, a)
    ensures Exec(d, [a]) == Some(Do(d, a))
  {
    assert Exec(d, []) == Some(d);
    ExecSnoc(d, [], a);
    assert [] + [a] == [a];
  }

  lemma ResumeMovesOn(m: Main)
    requires !m.Ready?
    ensures Question(Resume(m)) != Question(m)
  {
  }

  /** Otherwise at most two steps of the task and the loop settle the question. */
  lemma CanProceed(d: Daemon) returns (acts: seq<Act>)
    requires !d.main.Ready? && !Stuck(d) && |d.queue| <= EVENT_QUEUE_DEPTH
    ensures Exec(d, acts).Some? && Question(Exec(d, acts).value.main) != Question(d.main)
  {
    hide Process, Exec, Question, Resume;
    ResumeMovesOn(d.main);
    match Phases(d, d.main.task) {
      case Running =>
        ExecOne(d, Answer);
        acts := [Answer];
      case Exited =>
        ExecOne(d, FindGone);
        acts := [FindGone];
      case Closing =>
        acts := AnnounceFirst(d);
    }
  }

  lemma AnnounceFirst(d: Daemon) returns (acts: seq<Act>)
    requires !d.main.Ready? && Phases(d, d.main.task).Closing? && |d.queue| < EVENT_QUEUE_DEPTH
    ensures Exec(d, acts).Some? && Exec(d, acts).value.main == Resume(d.main)
  {
    hide Process, Exec, Question, Resume;
    ExecOne(d, Announce(d.main.task));
    ExecSnoc(d, [Announce(d.main.task)], FindGone);
    acts := [Announce(d.main.task)] + [FindGone];
  }

  // ---------------------------------------------------------------- runs that go wrong

  lemma StartIsReachable()
    ensures Reachable(Start)
  {
    assert Exec(Start, []) == Some(Start);
  }

  lemma Step(d: Daemon, a: Act) returns (t: Daemon)
    requires Reachable(d) && Can(d, a)
    ensures Reachable(t) && t == Do(d, a)
  {
    hide Can, Do;
    var acts :| Exec(Start, acts) == Some(d);
    ExecSnoc(Start, acts, a);
    t := Do(d, a);
  }

  lemma Command1(d: Daemon, req: Request) returns (t: Daemon)
    requires Reachable(d) && d.queue == [] && d.main.Ready? && RequestFits(req)
    ensures Reachable(t) && t == Process(d, Command(req), Some([]))
  {
    hide Reachable, Process;
    t := Step(d, Submit(req));
    assert t.queue[1..] == [];
    t := Step(t, Take(Some([])));
  }

  const AddIt := Request.Add([0x61], 0, 0)
  const Entry := Connection([0x61], 0, 0, [], 1)

  lemma AddEntry(d: Daemon) returns (t: Daemon)
    requires Reachable(d) && d.queue == [] && d.main.Ready? && d.conns == []
    ensures Reachable(t) && t.queue == [] && t.main.Ready?
    ensures t.conns == [Entry.(task := |d.workers|)] && t.workers == d.workers + [Worker([0x61], Running, false)]
  {
    hide Reachable;
    t := Command1(d, AddIt);
  }

  lemma RemoveEntry(d: Daemon, k: nat) returns (t: Daemon)
    requires Reachable(d) && d.queue == [] && d.main.Ready? && k < |d.workers| && d.conns == [Entry.(task := k)]
    ensures Reachable(t) && t.queue == [] && t.main.Ready? && t.conns == []
    ensures t.workers == d.workers[k := d.workers[k].(signalled := true)]
  {
    hide Reachable;
    t := Command1(d, Request.Remove([0x61]));
  }

  /** Added, removed, added again: the first task has not announced its end yet. */
  lemma AddTwice() returns (d: Daemon)
    ensures Reachable(d) && d.queue == [] && d.main.Ready? && d.conns == [Entry]
    ensures d.workers == [Worker([0x61], Closing, true), Worker([0x61], Running, false)]
  {
    hide Reachable, Process;
    StartIsReachable();
    d := AddEntry(Start);
    d := RemoveEntry(d, 0);
    d := Step(d, Stop(0));
    d := AddEntry(d);
  }

  /** A late farewell ends a newer connection of the same name, which nobody asked to remove. */
  lemma LateFarewellHitsNewerEntry() returns (d: Daemon)
    ensures Reachable(d) && d.queue == [Closed([0x61], 0)] && d.main.Ready?
    ensures d.conns == [Entry] && Phases(d, Entry.task).Running?
    ensures var t := Do(d, Take(None)); t.conns == [] && t.workers[Entry.task] == Worker([0x61], Running, true)
  {
    hide Reachable;
    d := AddTwice();
    d := Step(d, Announce(0));
  }

  lemma {:induction false} FillQueue(d: Daemon, n: nat) returns (t: Daemon)
    requires Reachable(d) && |d.queue| + n == EVENT_QUEUE_DEPTH
    ensures Reachable(t) && t.conns == d.conns && t.workers == d.workers && t.main == d.main && |t.queue| == EVENT_QUEUE_DEPTH
    decreases n
  {
    hide Reachable;
    t := d;
    if n > 0 {
      t := Step(d, Submit(Request.List));
      t := FillQueue(t, n - 1);
    }
  }

  /** The loop can get stuck: a listing asks a closing task while clients fill the queue. */
  lemma StuckIsReachable() returns (d: Daemon)
    ensures Reachable(d) && Stuck(d) && |d.queue| == 128
  {
    hide Reachable;
    StartIsReachable();
    d := AddEntry(Start);
    d := Step(d, Stop(0));
    d := Command1(d, Request.List);
    d := FillQueue(d, EVENT_QUEUE_DEPTH);
  }
}
