/**
 The counting event as a step machine: every locked section is one step, except the loops of `signal` and
 `signal_all`, where timeouts and cancellations, which claim a waiter without the lock, and `reset`, which
 takes no lock either, may fall between popping a waiter and notifying it.
 A waiter's number is its position in the order of enqueueing.
 */
module EventProtocol {
  import opened Prelude
  import opened HandOff

  // `bySignal` is set when a `signal`, rather than a `signal_all`, notified the waiter.
  datatype Waiter = Waiter(claim: Claim, bySignal: bool)

  datatype Pc =
    | Free
    | Signalling          // `signal`, at the test of the queue
    | SignalPopped(w: nat)
    | Broadcasting        // `signal_all`, at the test of the queue
    | BroadcastPopped(w: nat)

  datatype Sys = Sys(
    counter: int,
    queue: seq<nat>,
    waiters: seq<Waiter>,
    pc: Pc,
    signals: nat,     // calls of `signal`
    took: nat,        // waits satisfied at once by a banked signal
    discarded: int)   // banked signals dropped by `reset`

  datatype Step =
    | TryWait
    | Wait
    | Signal
    | SignalAll
    | Continue
    | Reset
    | Timeout(w: nat)
    | Cancel(w: nat)
    | Remove(w: nat)  // a timed-out waiter, or the awaiter of a served one, erases its queue node

  function Init(initially: bool): Sys {
    Sys(if initially then 1 else 0, [], [], Free, 0, 0, 0)
  }

  // None when there is no banked signal.
  function TryWaitOne(s: Sys): Option<Sys> {
    if s.counter > 0 then Some(s.(counter := s.counter - 1, took := s.took + 1)) else None
  }

  function Claimed(s: Sys, w: nat, how: Claim, bySignal: bool): Sys {
    if w < |s.waiters| && s.waiters[w].claim == Unclaimed then s.(waiters := s.waiters[w := Waiter(how, bySignal)])
    else s
  }

  function Loop(s: Sys): Sys {
    match s.pc
    case Free => s
    case Signalling =>
      if s.queue == [] then s.(counter := s.counter + 1, pc := Free)
      else s.(queue := s.queue[1..], pc := SignalPopped(s.queue[0]))
    case SignalPopped(w) =>
      var s' := Claimed(s, w, Notified, true);
      s'.(pc := if s' != s then Free else Signalling)
    case Broadcasting =>
      if s.queue == [] then s.(pc := Free)
      else s.(queue := s.queue[1..], pc := BroadcastPopped(s.queue[0]))
    case BroadcastPopped(w) => Claimed(s, w, Notified, false).(pc := Broadcasting)
  }

  // A step that cannot be taken (the event lock is held by a loop) leaves the state as it is.
  function Next(s: Sys, step: Step): Sys {
    match step
    case TryWait =>
      if s.pc != Free then s
      else var t := TryWaitOne(s); if t.Some? then t.value else s
    case Wait =>
      if s.pc != Free then s
      else
        var t := TryWaitOne(s);
        if t.Some? then t.value
        else s.(waiters := s.waiters + [Waiter(Unclaimed, false)], queue := s.queue + [|s.waiters|])
    case Signal => if s.pc != Free then s else s.(signals := s.signals + 1, pc := Signalling)
    case SignalAll => if s.pc != Free then s else s.(pc := Broadcasting)
    case Continue => Loop(s)
    case Reset => s.(discarded := s.discarded + s.counter, counter := 0)
    case Timeout(w) => Claimed(s, w, TimedOut, false)
    case Cancel(w) => Claimed(s, w, Cancelled, false)
    case Remove(w) =>
      if s.pc == Free && w < |s.waiters| && s.waiters[w].claim != Unclaimed then s.(queue := Without(s.queue, w)) else s
  }

  function Exec(initially: bool, steps: seq<Step>): Sys {
    if steps == [] then Init(initially) else Next(Exec(initially, steps[..|steps| - 1]), steps[|steps| - 1])
  }

  // ---- the invariant ----

  function ServedBySignal(waiters: seq<Waiter>): nat {
    if waiters == [] then 0
    else ServedBySignal(waiters[..|waiters| - 1]) + (if waiters[|waiters| - 1].bySignal then 1 else 0)
  }

  predicate InHand(pc: Pc, w: nat) {
    (pc.SignalPopped? || pc.BroadcastPopped?) && pc.w == w
  }

  // The queue is in enqueue order, behind the popped waiter; every live waiter is in it or in hand.
  ghost predicate QueueInv(s: Sys) {
    && Increasing(s.queue)
    && (forall x :: x in s.queue ==> x < |s.waiters| && s.waiters[x].claim != Notified)
    && (s.pc.SignalPopped? || s.pc.BroadcastPopped? ==>
         s.pc.w < |s.waiters| && s.waiters[s.pc.w].claim != Notified && forall x :: x in s.queue ==> s.pc.w < x)
    && (forall w :: 0 <= w < |s.waiters| && s.waiters[w].claim == Unclaimed ==> w in s.queue || InHand(s.pc, w))
  }

  ghost predicate CounterInv(s: Sys) {
    && s.counter >= 0
    && (forall w :: 0 <= w < |s.waiters| && s.waiters[w].claim == Unclaimed ==> s.counter == 0)
    && (forall w :: 0 <= w < |s.waiters| && s.waiters[w].bySignal ==> s.waiters[w].claim == Notified)
  }

  function Underway(s: Sys): nat {
    if s.pc.Signalling? || s.pc.SignalPopped? then 1 else 0
  }

  ghost predicate Conserved(s: Sys, initially: bool) {
    (if initially then 1 else 0) + s.signals
      == s.took + ServedBySignal(s.waiters) + s.counter + s.discarded + Underway(s)
  }

  lemma {:induction false} ServedAfterUpdate(waiters: seq<Waiter>, w: nat, x: Waiter)
    requires w < |waiters| && !waiters[w].bySignal
    ensures ServedBySignal(waiters[w := x]) == ServedBySignal(waiters) + (if x.bySignal then 1 else 0)
  {
    var n := |waiters| - 1;
    if w < n {
      ServedAfterUpdate(waiters[..n], w, x);
      assert waiters[w := x][..n] == waiters[..n][w := x];
    } else {
      assert waiters[w := x][..n] == waiters[..n];
    }
  }

  lemma FirstIsLeast(q: seq<nat>)
    requires q != [] && Increasing(q)
    ensures Increasing(q[1..])
    ensures forall x :: x in q[1..] ==> q[0] < x
    ensures forall x :: x in q <==> x == q[0] || x in q[1..]
  {
  }

  lemma PrependLeast(x: nat, q: seq<nat>)
    requires Increasing(q) && forall y :: y in q ==> x < y
    ensures Increasing([x] + q)
  {
    assert forall i :: 0 <= i < |q| ==> q[i] in q;
  }

  lemma AppendGreatest(q: seq<nat>, x: nat)
    requires Increasing(q) && forall y :: y in q ==> y < x
    ensures Increasing(q + [x])
  {
    assert forall i :: 0 <= i < |q| ==> q[i] in q;
  }

  lemma {:induction false} EraseMembers(q: seq<nat>, w: nat)
    requires Increasing(q)
    ensures Increasing(Without(q, w))
    ensures forall x :: x in Without(q, w) <==> x in q && x != w
  {
    if q != [] {
      FirstIsLeast(q);
      if q[0] != w {
        EraseMembers(q[1..], w);
        PrependLeast(q[0], Without(q[1..], w));
      }
    }
  }

  lemma ClaimKeepsInv(s: Sys, w: nat, how: Claim, bySignal: bool, initially: bool)
    requires QueueInv(s) && CounterInv(s) && Conserved(s, initially)
    requires how in {TimedOut, Cancelled} && !bySignal
    ensures var s' := Claimed(s, w, how, bySignal); QueueInv(s') && CounterInv(s') && Conserved(s', initially)
  {
    if w < |s.waiters| && s.waiters[w].claim == Unclaimed {
      ServedAfterUpdate(s.waiters, w, Waiter(how, bySignal));
    }
  }

  lemma PopKeepsQueue(s: Sys, pc: Pc)
    requires QueueInv(s) && s.queue != [] && (s.pc.Signalling? || s.pc.Broadcasting?)
    requires (pc.SignalPopped? || pc.BroadcastPopped?) && pc.w == s.queue[0]
    ensures QueueInv(s.(queue := s.queue[1..], pc := pc))
  {
    FirstIsLeast(s.queue);
    assert s.queue[0] in s.queue;
  }

  // The waiter in hand is notified, or was claimed before: nobody needs it in hand any longer.
  lemma NotifyKeepsQueue(s: Sys, bySignal: bool, pc: Pc)
    requires QueueInv(s) && (s.pc.SignalPopped? || s.pc.BroadcastPopped?) && !pc.SignalPopped? && !pc.BroadcastPopped?
    ensures QueueInv(Claimed(s, s.pc.w, Notified, bySignal).(pc := pc))
  {
  }

  lemma LoopKeepsQueue(s: Sys)
    requires QueueInv(s)
    ensures QueueInv(Loop(s))
  {
    match s.pc
    case Free =>
    case Signalling => if s.queue != [] { PopKeepsQueue(s, SignalPopped(s.queue[0])); }
    case SignalPopped(w) => NotifyKeepsQueue(s, true, Loop(s).pc);
    case Broadcasting => if s.queue != [] { PopKeepsQueue(s, BroadcastPopped(s.queue[0])); }
    case BroadcastPopped(w) => NotifyKeepsQueue(s, false, Broadcasting);
  }

  lemma LoopKeepsCounter(s: Sys)
    requires QueueInv(s) && CounterInv(s)
    ensures CounterInv(Loop(s))
  {
  }

  lemma LoopConserves(s: Sys, initially: bool)
    requires QueueInv(s) && CounterInv(s) && Conserved(s, initially)
    ensures Conserved(Loop(s), initially)
  {
    if s.pc.SignalPopped? && s.waiters[s.pc.w].claim == Unclaimed {
      ServedAfterUpdate(s.waiters, s.pc.w, Waiter(Notified, true));
    } else if s.pc.BroadcastPopped? && s.waiters[s.pc.w].claim == Unclaimed {
      ServedAfterUpdate(s.waiters, s.pc.w, Waiter(Notified, false));
    }
  }

  lemma WaitKeepsInv(s: Sys, initially: bool)
    requires QueueInv(s) && CounterInv(s) && Conserved(s, initially)
    ensures QueueInv(Next(s, Wait)) && CounterInv(Next(s, Wait)) && Conserved(Next(s, Wait), initially)
  {
    var s' := Next(s, Wait);
    if |s'.waiters| > |s.waiters| {
      AppendGreatest(s.queue, |s.waiters|);
      assert s'.waiters[..|s.waiters|] == s.waiters;
      forall w | 0 <= w < |s'.waiters| && s'.waiters[w].claim == Unclaimed
        ensures w in s'.queue
      {
        assert w < |s.waiters| ==> s.waiters[w].claim == Unclaimed;
        assert s'.queue[|s.queue|] == |s.waiters|;
      }
    }
  }

  lemma NextKeepsInv(s: Sys, step: Step, initially: bool)
    requires QueueInv(s) && CounterInv(s) && Conserved(s, initially)
    ensures QueueInv(Next(s, step)) && CounterInv(Next(s, step)) && Conserved(Next(s, step), initially)
  {
    match step
    case TryWait =>
    case Wait => WaitKeepsInv(s, initially);
    case Signal =>
    case SignalAll =>
    case Continue =>
      LoopKeepsQueue(s);
      LoopKeepsCounter(s);
      LoopConserves(s, initially);
    case Reset =>
    case Timeout(w) => ClaimKeepsInv(s, w, TimedOut, false, initially);
    case Cancel(w) => ClaimKeepsInv(s, w, Cancelled, false, initially);
    case Remove(w) => EraseMembers(s.queue, w);
  }

  lemma {:induction false} ExecKeepsInv(initially: bool, steps: seq<Step>)
    ensures var s := Exec(initially, steps); QueueInv(s) && CounterInv(s) && Conserved(s, initially)
  {
    if steps != [] {
      ExecKeepsInv(initially, steps[..|steps| - 1]);
      NextKeepsInv(Exec(initially, steps[..|steps| - 1]), steps[|steps| - 1], initially);
    }
  }

  // ---- the theorems ----

  /**
   No signal is lost or invented: whenever the event lock is free, the initial signal and the `signal` calls
   are the waits they satisfied, at once or by waking, plus the banked signals, plus those that `reset` dropped.
   */
  lemma SignalsAreConserved(initially: bool, steps: seq<Step>)
    requires Exec(initially, steps).pc == Free
    ensures var s := Exec(initially, steps);
            (if initially then 1 else 0) + s.signals == s.took + ServedBySignal(s.waiters) + s.counter + s.discarded
  {
    ExecKeepsInv(initially, steps);
  }

  /** A live waiter and a banked signal never coexist, and live waiters are always queued or about to be notified. */
  lemma LiveWaiterMeansNoSignal(initially: bool, steps: seq<Step>, w: nat)
    requires w < |Exec(initially, steps).waiters| && Exec(initially, steps).waiters[w].claim == Unclaimed
    ensures var s := Exec(initially, steps); s.counter == 0 && (w in s.queue || InHand(s.pc, w))
  {
    ExecKeepsInv(initially, steps);
  }

  lemma CounterIsTheBank(initially: bool, steps: seq<Step>)
    ensures CounterInv(Exec(initially, steps))
  {
    ExecKeepsInv(initially, steps);
  }

  // What a step makes of an unclaimed waiter `w`.
  function ClaimBy(pc: Pc, step: Step, w: nat): Waiter {
    if step == Timeout(w) then Waiter(TimedOut, false)
    else if step == Step.Cancel(w) then Waiter(Cancelled, false)
    else if step == Continue && pc == SignalPopped(w) then Waiter(Notified, true)
    else if step == Continue && pc == BroadcastPopped(w) then Waiter(Notified, false)
    else Waiter(Unclaimed, false)
  }

  /**
   Who claims a waiter: it is notified only by the instruction of a loop that notifies it, and expires only by
   a timeout or a cancellation of its own; the first of these succeeds, and nothing changes it after that.
   */
  lemma ClaimedByItsOwnStepsOnly(initially: bool, steps: seq<Step>, step: Step, w: nat)
    requires w < |Exec(initially, steps).waiters|
    ensures var s, s' := Exec(initially, steps), Next(Exec(initially, steps), step);
            && w < |s'.waiters|
            && s'.waiters[w] == if s.waiters[w].claim == Unclaimed then ClaimBy(s.pc, step, w) else s.waiters[w]
  {
    ExecKeepsInv(initially, steps);
  }

  /**
   A claimed waiter that removes itself is out of the queue from then on; all others stay, in their order, and
   nothing else changes.
   */
  lemma {:induction false} RemovalTakesOutOne(initially: bool, steps: seq<Step>, w: nat)
    requires var s := Exec(initially, steps); s.pc == Free && w < |s.waiters| && s.waiters[w].claim != Unclaimed
    ensures var s, s' := Exec(initially, steps), Next(Exec(initially, steps), Remove(w));
            && s' == s.(queue := s'.queue) && Increasing(s'.queue)
            && forall x :: x in s'.queue <==> x in s.queue && x != w
  {
    ExecKeepsInv(initially, steps);
    EraseMembers(Exec(initially, steps).queue, w);
  }

  lemma NextKeepsClaims(s: Sys, step: Step, w: nat)
    requires w < |s.waiters| && s.waiters[w].claim != Unclaimed
    ensures w < |Next(s, step).waiters| && Next(s, step).waiters[w] == s.waiters[w]
  {
  }

  /** The first claim of a waiter is final, and an expired waiter never counts as served by a signal. */
  lemma ClaimIsFinal(initially: bool, steps: seq<Step>, more: seq<Step>, w: nat)
    requires w < |Exec(initially, steps).waiters| && Exec(initially, steps).waiters[w].claim != Unclaimed
    ensures var s, s' := Exec(initially, steps), Exec(initially, steps + more);
            && w < |s'.waiters| && s'.waiters[w] == s.waiters[w]
            && (s.waiters[w].claim != Notified ==> !s'.waiters[w].bySignal)
  {
    ExecKeepsInv(initially, steps);
    if more == [] {
      assert steps + more == steps;
    } else {
      var n := |more| - 1;
      ClaimIsFinal(initially, steps, more[..n], w);
      NextKeepsClaims(Exec(initially, steps + more[..n]), more[n], w);
      assert (steps + more)[..|steps + more| - 1] == steps + more[..n];
    }
  }

  /**
   Where a `signal` ends up: with the first live waiter in enqueue order, leaving everyone else alone; or,
   when every waiter has been claimed, in the bank.
   */
  lemma SignalGoesToFirstLiveWaiter(initially: bool, steps: seq<Step>)
    requires var s := Exec(initially, steps); Underway(s) == 1 && Loop(s).pc == Free
    ensures var s, s' := Exec(initially, steps), Loop(Exec(initially, steps));
            if s.pc.SignalPopped? then
              && s.waiters[s.pc.w].claim == Unclaimed
              && s'.waiters == s.waiters[s.pc.w := Waiter(Notified, true)]
              && (forall v :: 0 <= v < s.pc.w ==> s.waiters[v].claim != Unclaimed)
              && s'.counter == s.counter
            else
              && (forall v :: 0 <= v < |s.waiters| ==> s.waiters[v].claim != Unclaimed)
              && s'.waiters == s.waiters && s'.counter == s.counter + 1
  {
    ExecKeepsInv(initially, steps);
  }
}
