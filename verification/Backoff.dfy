/** The reconnect delays of the connection task over whole stretches of being offline. */
module Backoff {
  import opened Bytes
  import opened DeviceCodec
  import opened ConnProtocol

  /** A task with the time of its last event and, while reconnecting, the end of its sleep. */
  datatype Clock = Clock(t: Task, now: nat, deadline: nat)

  datatype Timed = Timed(at: nat, e: Event)

  /** Time does not run backwards and a sleep does not end early. */
  predicate CanAt(c: Clock, x: Timed) {
    Can(c.t, x.e) && c.now <= x.at && (x.e.SleepElapsed? ==> c.deadline <= x.at)
  }

  /** Entering `step_reconnecting` arms the sleep; its loop over requests does not. */
  function Tick(c: Clock, x: Timed): Clock
    requires CanAt(c, x)
  {
    var u := React(c.t, x.e).0;
    var entered := u.state.Reconnecting? && (x.e.SleepElapsed? || !c.t.state.Reconnecting?);
    Clock(u, x.at, if entered then x.at + u.state.backoff else c.deadline)
  }

  function Run(c: Clock, xs: seq<Timed>): Option<Clock>
    decreases |xs|
  {
    if xs == [] then Some(c)
    else
      match Run(c, xs[..|xs| - 1])
      case None => None
      case Some(d) => if CanAt(d, xs[|xs| - 1]) then Some(Tick(d, xs[|xs| - 1])) else None
  }

  function Pow2(k: nat): nat { if k == 0 then 1 else 2 * Pow2(k - 1) }

  /** The delay after `k` failed connects in a row. */
  function Delay(k: nat): nat {
    if INITIAL_RECONNECT_BACKOFF * Pow2(k) < MAX_RECONNECT_BACKOFF then INITIAL_RECONNECT_BACKOFF * Pow2(k)
    else MAX_RECONNECT_BACKOFF
  }

  /** The sum of the first `k` delays. */
  function Total(k: nat): nat { if k == 0 then 0 else Total(k - 1) + Delay(k - 1) }

  lemma DelayDoubles(k: nat)
    ensures NextBackoff(Delay(k)) == Delay(k + 1)
  {
  }

  lemma Pow2Values()
    ensures Pow2(1) == 2 && Pow2(2) == 4 && Pow2(3) == 8 && Pow2(4) == 16 && Pow2(5) == 32 && Pow2(6) == 64
  {
    assert Pow2(6) == 2 * Pow2(5) && Pow2(5) == 2 * Pow2(4) && Pow2(4) == 2 * Pow2(3);
    assert Pow2(3) == 2 * Pow2(2) && Pow2(2) == 2 * Pow2(1) && Pow2(1) == 2;
  }

  lemma {:induction false} Pow2FromSix(k: nat)
    requires k >= 6
    ensures Pow2(k) >= 64
  {
    if k == 6 {
      Pow2Values();
    } else {
      Pow2FromSix(k - 1);
    }
  }

  lemma {:induction false} Pow2UpToFive(k: nat)
    requires k <= 5
    ensures Pow2(k) <= 32
  {
    if k > 0 {
      Pow2UpToFive(k - 1);
      Pow2Values();
      assert k == 1 || k == 2 || k == 3 || k == 4 || k == 5;
    }
  }

  /** The delays double six times and then stay at the maximum. */
  lemma {:induction false} TotalClosedForm(k: nat)
    ensures Total(k) == if k <= 6 then 100 * (Pow2(k) - 1) else 6300 + 5000 * (k - 6)
  {
    if k > 0 {
      TotalClosedForm(k - 1);
      if k <= 6 {
        Pow2UpToFive(k - 1);
      } else {
        Pow2FromSix(k - 1);
        Pow2Values();
      }
    }
  }

  /** What can happen while offline without ending it: requests, and connects that fail. */
  predicate StaysOffline(x: Timed) {
    x.e.HwRequest? || x.e.StatusRequest? || x.e == SleepElapsed(false)
  }

  function FailedConnects(xs: seq<Timed>): nat
    decreases |xs|
  {
    if xs == [] then 0
    else FailedConnects(xs[..|xs| - 1]) + if xs[|xs| - 1].e.SleepElapsed? then 1 else 0
  }

  /** Every sleep ends on time. */
  predicate Prompt(c: Clock, xs: seq<Timed>)
    decreases |xs|
  {
    xs == [] ||
    (var before, x := xs[..|xs| - 1], xs[|xs| - 1];
     Prompt(c, before) && (x.e.SleepElapsed? && Run(c, before).Some? ==> x.at == Run(c, before).value.deadline))
  }

  /** A task that has just gone offline. */
  predicate JustOffline(c: Clock) {
    && c.t.state.Reconnecting? && c.t.state.backoff == INITIAL_RECONNECT_BACKOFF
    && !c.t.linked && c.deadline == c.now + INITIAL_RECONNECT_BACKOFF
  }

  /** Requests that come in while waiting never move the deadline. */
  lemma TrafficKeepsDeadline(c: Clock, x: Timed)
    requires CanAt(c, x) && c.t.state.Reconnecting? && (x.e.HwRequest? || x.e.StatusRequest?)
    ensures Tick(c, x).deadline == c.deadline && Tick(c, x).t.state == c.t.state
  {
  }

  lemma OfflineStep(c: Clock, x: Timed, k: nat, pending: Option<DeviceMessage>)
    requires CanAt(c, x) && StaysOffline(x) && !c.t.linked && c.t.state == Reconnecting(Delay(k), pending)
    ensures var d := Tick(c, x);
            && !d.t.linked
            && d.t.state == Reconnecting(if x.e.SleepElapsed? then Delay(k + 1) else Delay(k), pending)
            && d.deadline == (if x.e.SleepElapsed? then x.at + Delay(k + 1) else c.deadline)
  {
    hide Encode, Delay, NextBackoff;
    DelayDoubles(k);
  }

  /**
    However requests and failed connects interleave: after `k` failures the delay is
    `min(100 * 2^k, 5000)`, the retained message is still there, and the next connect is due no
    earlier than the first `k + 1` delays allow, and exactly then if every sleep ended on time.
   */
  lemma {:induction false} BackoffOverRuns(c: Clock, xs: seq<Timed>)
    requires JustOffline(c) && Run(c, xs).Some? && (forall x <- xs :: StaysOffline(x))
    ensures var d, k := Run(c, xs).value, FailedConnects(xs);
            && !d.t.linked
            && d.t.state == Reconnecting(Delay(k), c.t.state.pending)
            && d.deadline >= c.now + Total(k + 1)
            && (Prompt(c, xs) ==> d.deadline == c.now + Total(k + 1))
    decreases |xs|
  {
    if xs == [] {
      assert Pow2(0) == 1 && Total(1) == Total(0) + Delay(0);
    } else {
      var before := xs[..|xs| - 1];
      hide Encode, Delay, Can, React;
      BackoffOverRuns(c, before);
      assert StaysOffline(xs[|xs| - 1]);
      OfflineStep(Run(c, before).value, xs[|xs| - 1], FailedConnects(before), c.t.state.pending);
    }
  }

  /** Losing the link is going offline: the delays start over, whatever was waited before. */
  lemma LosingTheLinkStartsOver(c: Clock, x: Timed)
    requires CanAt(c, x) && LinkMatchesState(c.t) && !c.t.state.Reconnecting?
    ensures Tick(c, x).t.state.Reconnecting? ==> JustOffline(Tick(c, x))
  {
    hide Encode, FromBytes;
  }
}
