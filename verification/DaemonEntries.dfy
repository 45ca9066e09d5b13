/**
  Where the daemon's entries come from, and whom its requests ask: every entry stems from one
  submitted request to add it, and a listing asks the connections it lists, each once and in order.
 */
module DaemonEntries {
  import opened Bytes
  import opened Utf8
  import opened ControlCodec
  import opened Registry
  import opened DaemonLoop

  // ---------------------------------------------------------------- entries

  ghost predicate Submitted(acts: seq<Act>, req: Request) { Submit(req) in acts }

  /** At step `i` of the run the loop took a request to add `c`, as the task of the next number. */
  ghost predicate AddedAt(acts: seq<Act>, i: nat, c: Connection) {
    && i < |acts| && acts[i] == Take(Some(c.ptsPath))
    && match Exec(Start, acts[..i])
       case None => false
       case Some(s) =>
         s.queue != [] && s.queue[0] == Command(Add(c.name, c.addr, c.port)) && |s.workers| == c.task
  }

  ghost predicate WereAsked(acts: seq<Act>, d: Daemon) {
    && (forall e :: e in d.queue && e.Command? ==> Submitted(acts, e.req))
    && (forall c :: c in d.conns ==> Submitted(acts, Add(c.name, c.addr, c.port)))
    && (forall c :: c in d.conns ==> exists i: nat :: AddedAt(acts, i, c))
  }

  /** The entries there were, and perhaps the one the loop has been asked to add. */
  lemma EntriesOfStep(d: Daemon, a: Act)
    requires Inv(d) && Can(d, a)
    ensures forall c :: c in Do(d, a).conns ==>
              || c in d.conns
              || (d.queue != [] && d.queue[0] == Command(Add(c.name, c.addr, c.port))
                  && a == Take(Some(c.ptsPath)) && c.task == |d.workers|)
    ensures forall e :: e in Do(d, a).queue && e.Command? ==> e in d.queue || a == Submit(e.req)
  {
    hide Find, Distinct, Signal, Spawn, Asks, NoZombies, QueueInv, MainInv, SetPhase;
    if a.Take? {
      match d.queue[0] {
        case Closed(name, _) => RemovedKeepsOthers(d.conns, name);
        case Command(Remove(name)) => RemovedKeepsOthers(d.conns, name);
        case Command(Add(_, _, _)) =>
        case Command(List) =>
        case Command(Reset(_)) =>
      }
    }
  }

  lemma {:induction false} WereAskedOverRuns(acts: seq<Act>)
    requires Exec(Start, acts).Some?
    ensures WereAsked(acts, Exec(Start, acts).value)
    decreases |acts|
  {
    hide Can, Do, Inv;
    if acts != [] {
      var front, a := acts[..|acts| - 1], acts[|acts| - 1];
      var s, d := Exec(Start, front).value, Exec(Start, acts).value;
      WereAskedOverRuns(front);
      InvAtStart();
      InvOverRuns(Start, front);
      EntriesOfStep(s, a);
      assert forall req :: Submitted(front, req) ==> Submitted(acts, req);
      assert a in acts;
      forall c | c in d.conns
        ensures Submitted(acts, Add(c.name, c.addr, c.port)) && exists i: nat :: AddedAt(acts, i, c)
      {
        if c in s.conns {
          var i: nat :| AddedAt(front, i, c);
          assert acts[..i] == front[..i];
          assert AddedAt(acts, i, c);
        } else {
          assert AddedAt(acts, |front|, c);
          assert s.queue[0] in s.queue;
        }
      }
    }
  }

  /**
    Every entry has the name, address and port of one submitted request, and the path that was opened
    for it. No two entries stem from the same one.
   */
  lemma EntriesWereAsked(acts: seq<Act>, d: Daemon)
    requires Exec(Start, acts) == Some(d)
    ensures forall c :: c in d.conns ==> Submit(Add(c.name, c.addr, c.port)) in acts
    ensures forall c :: c in d.conns ==> exists i: nat :: AddedAt(acts, i, c)
    ensures forall i: nat, b, c :: AddedAt(acts, i, b) && AddedAt(acts, i, c) ==> b == c
  {
    WereAskedOverRuns(acts);
    hide Exec;
    assert forall c :: c in d.conns ==> Submitted(acts, Add(c.name, c.addr, c.port));
  }

  // ---------------------------------------------------------------- listings

  /** The loop waits for the status of entry `n`, and the entries after it are still to ask. */
  predicate AsksFrom(d: Daemon, n: nat) {
    && n < |d.conns|
    && d.main.Polling? && d.main.task == d.conns[n].task
    && |d.main.rest| == |d.conns| - n - 1
    && forall i :: 0 <= i < |d.main.rest| ==> d.main.rest[i] == d.conns[n + 1 + i].task
  }

  lemma {:induction false} TaskAt(cs: seq<Connection>, i: nat)
    requires i < |cs|
    ensures |Tasks(cs)| == |cs| && Tasks(cs)[i] == cs[i].task
  {
    if i > 0 {
      TaskAt(cs[1..], i - 1);
    } else {
      TasksOfEntries(cs);
    }
  }

  /** A listing starts with the first entry, or is done at once when there is none. */
  lemma ListingStarts(d: Daemon, pty: Option<Utf8>)
    requires Can(d, Take(pty)) && d.queue[0] == Command(List)
    ensures var t := Do(d, Take(pty));
            t.conns == d.conns && if d.conns == [] then t.main == Ready else AsksFrom(t, 0)
  {
    forall i | 0 <= i < |d.conns|
      ensures |Tasks(d.conns)| == |d.conns| && Tasks(d.conns)[i] == d.conns[i].task
    {
      TaskAt(d.conns, i);
    }
  }

  /** An answer, or that the task is gone, moves it to the next entry; nothing else does, and no entry comes or goes. */
  lemma ListingStep(d: Daemon, n: nat, a: Act)
    requires AsksFrom(d, n) && Can(d, a)
    ensures var t := Do(d, a);
            && t.conns == d.conns
            && if !a.Answer? && !a.FindGone? then AsksFrom(t, n)
               else if n + 1 < |d.conns| then AsksFrom(t, n + 1)
               else t.main == Ready
  {
  }

  /** A reset asks the one connection of its name, and waits for nobody when there is none. */
  lemma ResetAsks(d: Daemon, pty: Option<Utf8>, name: Utf8)
    requires Reachable(d) && Can(d, Take(pty)) && d.queue[0] == Command(Request.Reset(name))
    ensures var t := Do(d, Take(pty));
            && t.conns == d.conns
            && (t.main == Ready <==> forall c :: c in d.conns ==> c.name != name)
            && (forall c :: c in d.conns && c.name == name ==> t.main == Controlling(c.task, false))
  {
    RegistryOverRuns(d);
    OnlyOneOfTheName(d.conns, name);
    hide Exec, Find;
    if Exists(d.conns, name) {
      assert d.conns[Find(d.conns, name)] in d.conns;
    }
  }

  ghost predicate ListsInOrder(d: Daemon) {
    d.main.Polling? ==> exists n: nat :: AsksFrom(d, n)
  }

  lemma ListsInOrderStep(d: Daemon, a: Act)
    requires ListsInOrder(d) && Can(d, a)
    ensures ListsInOrder(Do(d, a))
  {
    hide AsksFrom, Tasks, Handled, Removed, Signal, Spawn;
    if d.main.Polling? {
      var n: nat :| AsksFrom(d, n);
      ListingStep(d, n, a);
    } else if a.Take? && d.queue[0] == Command(List) {
      ListingStarts(d, a.pty);
    }
  }

  /** Whenever the loop waits for a status, it is at some entry of the registry as it stands. */
  lemma {:induction false} ListingsAskInOrder(acts: seq<Act>, d: Daemon)
    requires Exec(Start, acts) == Some(d)
    ensures d.main.Polling? ==> exists n: nat :: AsksFrom(d, n)
    decreases |acts|
  {
    hide Can, Do, AsksFrom;
    if acts != [] {
      var s := Exec(Start, acts[..|acts| - 1]).value;
      ListingsAskInOrder(acts[..|acts| - 1], s);
      ListsInOrderStep(s, acts[|acts| - 1]);
    }
  }
}
