/**
 The event object, with timers and cancellers acting between the instructions of the notifying loops. The
 ghost field `steps` is a run of the protocol that the object has gone through: its counter, its queue and
 the claims of the waits in it are those at the end of that run.
 */
module Event {
  import opened HandOff
  import opened Prelude
  import opened WaitState
  import P = EventProtocol

  lemma {:induction false} WithoutAt(s: seq<nat>, j: nat)
    requires j < |s| && forall i :: 0 <= i < j ==> s[i] != s[j]
    ensures Without(s, s[j]) == s[..j] + s[j + 1..]
  {
    if j > 0 {
      WithoutAt(s[1..], j - 1);
      assert s[..j] == [s[0]] + s[1..][..j - 1];
      assert s[1..][j..] == s[j + 1..];
    }
  }

  lemma Shifted<T>(s: seq<T>, j: nat)
    requires j < |s|
    ensures var rest := s[..j] + s[j + 1..];
            forall i :: 0 <= i < |rest| ==> rest[i] == s[if i < j then i else i + 1]
  {
  }

  class Event {
    var counter: int
    var waitAwakes: seq<WaitState>
    ghost const initially: bool
    ghost var steps: seq<P.Step>
    ghost var sys: P.Sys

    // ---- the object shows a state of the protocol ----

    // `sys` is where the run leads. The quantifier keeps the run folded until a proof mentions it.
    ghost predicate Traced()
      reads this
    {
      forall run :: run == steps ==> P.Exec(initially, run) == sys
    }

    // The queue holds the waits that the protocol's queue numbers; none has been notified.
    ghost predicate ShowsQueue()
      reads this, waitAwakes
    {
      && NoDuplicates(waitAwakes) && |waitAwakes| == |sys.queue|
      && forall j :: 0 <= j < |waitAwakes| ==>
           && waitAwakes[j].Waiting()
           && sys.queue[j] < |sys.waiters| && waitAwakes[j].claim == sys.waiters[sys.queue[j]].claim
    }

    ghost predicate Shows()
      reads this, waitAwakes
    {
      Traced() && ShowsQueue() && counter == sys.counter
    }

    // What holds whenever the event lock is free.
    ghost predicate Valid()
      reads this, waitAwakes
    {
      && Shows() && sys.pc == P.Free
      && counter >= 0
      && forall s :: s in waitAwakes && s.claim == Unclaimed ==> counter == 0
    }

    constructor (initially: bool)
      ensures Valid() && waitAwakes == [] && counter == (if initially then 1 else 0)
      ensures this.initially == initially && steps == []
    {
      counter := if initially then 1 else 0;
      waitAwakes := [];
      this.initially, steps, sys := initially, [], P.Init(initially);
    }

    // The protocol takes a step.
    ghost method Take(step: P.Step)
      requires Traced()
      modifies this`steps, this`sys
      ensures Traced() && sys == P.Next(old(sys), step) && steps == old(steps) + [step]
    {
      assert P.Exec(initially, steps) == sys;
      assert (steps + [step])[..|steps|] == steps;
      steps := steps + [step];
      sys := P.Next(sys, step);
    }

    // The numbers in the queue and in the hand are all different.
    ghost predicate Distinct()
      reads this
    {
      && (forall i, j :: 0 <= i < j < |sys.queue| ==> sys.queue[i] != sys.queue[j])
      && (sys.pc.SignalPopped? || sys.pc.BroadcastPopped? ==>
           sys.pc.w < |sys.waiters| && forall j :: 0 <= j < |sys.queue| ==> sys.queue[j] != sys.pc.w)
    }

    lemma TracedIsDistinct()
      requires Traced()
      ensures Distinct()
    {
      P.ExecKeepsInv(initially, steps);
      assert forall j :: 0 <= j < |sys.queue| ==> sys.queue[j] in sys.queue;
    }

    lemma ShowsMakesValid()
      requires Shows() && sys.pc == P.Free
      ensures Valid()
    {
      P.CounterIsTheBank(initially, steps);
      assert P.CounterInv(sys);
    }

    // One step: what a `reset` in its middle does is `TryWaitOneAmidResets`.
    method TryWaitOne() returns (ok: bool)
      requires Valid()
      modifies this`counter, this`steps, this`sys
      ensures Valid() && steps == old(steps) + [P.TryWait] && sys == P.Next(old(sys), P.TryWait)
      ensures ok <==> old(counter) > 0
      ensures counter == if ok then old(counter) - 1 else old(counter)
    {
      Take(P.TryWait);
      if counter > 0 {
        counter := counter - 1;
        ok := true;
      } else {
        ok := false;
      }
      ShowsMakesValid();
    }

    /**
     The instructions of `try_wait_one`, with a `reset` falling before the decrement or before its undoing.
     With both, the counter ends at 1 without any signal; in every other case it ends as after the whole
     `reset`, if one came first, and a whole `try_wait_one`.
     */
    method TryWaitOneAmidResets(resetBeforeTake: bool, resetBeforeUndo: bool) returns (ok: bool)
      requires counter >= 0
      modifies this`counter
      ensures ok <==> old(counter) > 0 && !resetBeforeTake
      ensures old(counter) > 0 && resetBeforeTake && resetBeforeUndo ==> counter == 1
      ensures !(old(counter) > 0 && resetBeforeTake && resetBeforeUndo) ==>
                counter == if ok then old(counter) - 1 else 0
    {
      if counter > 0 {
        if resetBeforeTake {
          counter := 0;
        }
        var was := counter;
        counter := counter - 1;
        if was > 0 {
          return true;
        }
        if resetBeforeUndo {
          counter := 0;
        }
        counter := counter + 1;
      }
      return false;
    }

    /** `awaiter::await_suspend2`: take a banked signal, or join the end of the queue. */
    method AwaitSuspend(root: nat) returns (state: WaitState?)
      requires Valid()
      modifies this
      ensures Valid() && sys == P.Next(old(sys), P.Wait)
      ensures state == null <==> old(counter) > 0
      ensures state == null ==> counter == old(counter) - 1 && waitAwakes == old(waitAwakes)
      ensures state != null ==>
                fresh(state) && state.Snap() == View(root, Unclaimed, true, true, 0) && counter == old(counter) == 0 &&
                waitAwakes == old(waitAwakes) + [state]
    {
      var ok := TryWaitOne();
      if ok {
        return null;
      }
      state := new WaitState(root);
      waitAwakes := waitAwakes + [state];
      Take(P.Wait);
      ShowsMakesValid();
    }

    /** A timer or a canceller acts on the wait at position `j` of the queue, without the event lock. */
    method Expire(j: nat, cancel: bool)
      requires Valid() && j < |waitAwakes|
      modifies this`steps, this`sys, waitAwakes[j]
      ensures Valid()
      ensures waitAwakes[j].Snap() == Suffer(old(waitAwakes[j].Snap()), if cancel then Cancel else TimeOut)
      ensures sys == P.Next(old(sys), if cancel then P.Cancel(old(sys).queue[j]) else P.Timeout(old(sys).queue[j]))
    {
      TracedIsDistinct();
      if cancel {
        waitAwakes[j].OnCancel();
      } else {
        var _ := waitAwakes[j].OnTimeout();
      }
      Take(if cancel then P.Cancel(sys.queue[j]) else P.Timeout(sys.queue[j]));
      ShowsMakesValid();
    }

    /** `remove_wait_list`: a wait that a timer or a canceller has claimed takes itself out of the queue. */
    method Remove(j: nat)
      requires Valid() && j < |waitAwakes| && waitAwakes[j].claim != Unclaimed
      modifies this`waitAwakes, this`steps, this`sys
      ensures Valid() && waitAwakes == old(waitAwakes)[..j] + old(waitAwakes)[j + 1..]
      ensures sys == P.Next(old(sys), P.Remove(old(sys).queue[j]))
    {
      EraseAt(j);
      ShowsMakesValid();
    }

    method EraseAt(j: nat)
      requires Shows() && sys.pc == P.Free && j < |waitAwakes| && waitAwakes[j].claim != Unclaimed
      modifies this`waitAwakes, this`steps, this`sys
      ensures Shows() && sys.pc == P.Free && waitAwakes == old(waitAwakes)[..j] + old(waitAwakes)[j + 1..]
      ensures sys == P.Next(old(sys), P.Remove(old(sys).queue[j]))
    {
      TracedIsDistinct();
      WithoutAt(sys.queue, j);
      Shifted(sys.queue, j);
      Shifted(waitAwakes, j);
      Take(P.Remove(sys.queue[j]));
      waitAwakes := waitAwakes[..j] + waitAwakes[j + 1..];
    }

    method Reset()
      requires Valid()
      modifies this`counter, this`steps, this`sys
      ensures Valid() && counter == 0 && sys == P.Next(old(sys), P.Reset)
    {
      Take(P.Reset);
      counter := 0;
      ShowsMakesValid();
    }

    // ---- the notifying loops ----

    /**
     One signal, while timers and cancellers do `env`: to the first waiter of the queue that was unclaimed
     and that they spare until its turn, or, if there is none, to the counter.
     */
    method Signal(env: Interference)
      requires Valid()
      modifies this, waitAwakes
      ensures Valid() && old(steps) < steps && Signalled(old(waitAwakes), old(Views(waitAwakes)), env, old(counter))
    {
      ghost var before := Views(waitAwakes);
      Take(P.Signal);
      SignalOrBank(env, before);
      ShowsMakesValid();
    }

    // The signal went to the first live waiter of `queue`, whose waits looked like `before`, or to the counter.
    ghost predicate Signalled(queue: seq<WaitState>, before: seq<View>, env: Interference, banked: int)
      requires |before| == |queue|
      reads this, queue
    {
      var k := FirstLive(before, env, 0);
      && HandedToFirst(before, Views(queue), env, k)
      && if k < |queue| then waitAwakes == queue[k + 1..] && counter == banked
         else waitAwakes == [] && counter == banked + 1
    }

    method SignalOrBank(env: Interference, ghost before: seq<View>)
      requires Shows() && sys.pc == P.Signalling && before == Views(waitAwakes)
      modifies this`counter, this`waitAwakes, this`steps, this`sys, waitAwakes
      ensures Shows() && sys.pc == P.Free && old(steps) <= steps
      ensures Signalled(old(waitAwakes), before, env, old(counter))
    {
      var claimed, k, after := SignalLoop(env, before);
      HandedToFirstIsUnique(before, after, env, k);
      if !claimed {
        Bank();
      }
    }

    method Bank()
      requires Shows() && sys.pc == P.Signalling && waitAwakes == []
      modifies this`counter, this`steps, this`sys
      ensures Shows() && sys.pc == P.Free && old(steps) <= steps && counter == old(counter) + 1
    {
      Take(P.Continue);
      counter := counter + 1;
    }

    // The loop of `Signal`: it ends with the first waiter it notifies, or with an empty queue.
    method SignalLoop(env: Interference, ghost before: seq<View>)
      returns (claimed: bool, ghost k: nat, ghost now: seq<View>)
      requires Shows() && sys.pc == P.Signalling && before == Views(waitAwakes)
      modifies this`waitAwakes, this`steps, this`sys, waitAwakes
      ensures Shows() && old(steps) <= steps && sys.pc == if claimed then P.Free else P.Signalling
      ensures now == Views(old(waitAwakes)) && HandedToFirst(before, now, env, k) && (claimed <==> k < |before|)
      ensures waitAwakes == if claimed then old(waitAwakes)[k + 1..] else []
    {
      ghost var queue := waitAwakes;
      now := before;
      var i := 0;
      while waitAwakes != []
        invariant Shows() && sys.pc == P.Signalling && old(steps) <= steps
        invariant i <= |queue| && waitAwakes == queue[i..]
        invariant now == Views(queue) && InProgress(before, now, env, i)
        decreases |waitAwakes|
      {
        claimed, now := SignalTurn(i, env, queue, before, now);
        if claimed {
          return claimed, i, now;
        }
        i := i + 1;
      }
      return false, i, now;
    }

    method SignalTurn(i: nat, env: Interference, ghost queue: seq<WaitState>, ghost before: seq<View>,
                      ghost now: seq<View>)
      returns (claimed: bool, ghost after: seq<View>)
      requires Shows() && sys.pc == P.Signalling && NoDuplicates(queue)
      requires i < |queue| && waitAwakes == queue[i..] && now == Views(queue) && InProgress(before, now, env, i)
      modifies this`waitAwakes, this`steps, this`sys, waitAwakes
      ensures Shows() && old(steps) <= steps && sys.pc == if claimed then P.Free else P.Signalling
      ensures waitAwakes == queue[i + 1..] && after == Views(queue)
      ensures if claimed then HandedToFirst(before, after, env, i) else InProgress(before, after, env, i + 1)
    {
      TurnGoesOn(before, now, env, i);
      claimed := Turn(i, env, queue, now);
      after := Turned(now, env, i);
    }

    /**
     Every waiter of the queue that was unclaimed and that timers and cancellers spare until its turn is
     notified, and nobody else; no signal is banked.
     */
    method SignalAll(env: Interference)
      requires Valid()
      modifies this, waitAwakes
      ensures Valid() && old(steps) < steps && waitAwakes == [] && counter == old(counter)
      ensures HandedToAll(old(Views(waitAwakes)), Views(old(waitAwakes)), env)
    {
      ghost var before := Views(waitAwakes);
      Take(P.SignalAll);
      BroadcastLoop(env, before);
      Take(P.Continue);
      ShowsMakesValid();
    }

    method BroadcastLoop(env: Interference, ghost before: seq<View>)
      requires Shows() && sys.pc == P.Broadcasting && before == Views(waitAwakes)
      modifies this`waitAwakes, this`steps, this`sys, waitAwakes
      ensures Shows() && sys.pc == P.Broadcasting && old(steps) <= steps && waitAwakes == []
      ensures HandedToAll(before, Views(old(waitAwakes)), env)
    {
      ghost var queue, now := waitAwakes, before;
      var i := 0;
      while waitAwakes != []
        invariant Shows() && sys.pc == P.Broadcasting && old(steps) <= steps
        invariant i <= |queue| && waitAwakes == queue[i..]
        invariant now == Views(queue) && InBroadcast(before, now, env, i)
        decreases |waitAwakes|
      {
        BroadcastGoesOn(before, now, env, i);
        var _ := Turn(i, env, queue, now);
        now := Turned(now, env, i);
        i := i + 1;
      }
    }

    // Turn `i` of a loop: its waiter is notified, unless a timer or a canceller has claimed it.
    method Turn(i: nat, env: Interference, ghost queue: seq<WaitState>, ghost now: seq<View>) returns (claimed: bool)
      requires Shows() && sys.pc in {P.Signalling, P.Broadcasting}
      requires i < |queue| && waitAwakes == queue[i..] && NoDuplicates(queue) && now == Views(queue)
      modifies this`waitAwakes, this`steps, this`sys, waitAwakes
      ensures Shows() && old(steps) <= steps && waitAwakes == queue[i + 1..]
      ensures Views(queue) == Turned(now, env, i) && (claimed <==> Taken(now[i], env, i))
      ensures sys.pc == if claimed && old(sys.pc) == P.Signalling then P.Free else old(sys.pc)
    {
      var state := PopFirst();
      assert waitAwakes == queue[i + 1..] && state == queue[i];
      claimed := NotifyHand(state, env, i, queue, now);
    }

    ghost predicate InHand(state: WaitState)
      reads this, state
    {
      && (sys.pc.SignalPopped? || sys.pc.BroadcastPopped?) && sys.pc.w < |sys.waiters|
      && state.claim == sys.waiters[sys.pc.w].claim && state.Waiting()
    }

    method PopFirst() returns (state: WaitState)
      requires Shows() && sys.pc in {P.Signalling, P.Broadcasting} && waitAwakes != []
      modifies this`waitAwakes, this`steps, this`sys
      ensures Shows() && old(steps) < steps && state == old(waitAwakes)[0] && waitAwakes == old(waitAwakes)[1..]
      ensures InHand(state) && (sys.pc.SignalPopped? <==> old(sys.pc) == P.Signalling)
    {
      Take(P.Continue);
      state := waitAwakes[0];
      waitAwakes := waitAwakes[1..];
    }

    method NotifyHand(state: WaitState, env: Interference, i: nat, ghost queue: seq<WaitState>, ghost now: seq<View>)
      returns (claimed: bool)
      requires Shows() && InHand(state) && now == Views(queue)
      requires NoDuplicates(queue) && i < |queue| && state == queue[i] && waitAwakes == queue[i + 1..]
      modifies this`steps, this`sys, state, waitAwakes
      ensures Shows() && old(steps) < steps
      ensures Views(queue) == Turned(now, env, i) && (claimed <==> Taken(now[i], env, i))
      ensures sys.pc == if old(sys.pc).BroadcastPopped? then P.Broadcasting
                        else if claimed then P.Free else P.Signalling
    {
      claimed := Race(state, env, i, queue, now);
      FollowNotice(state, claimed);
    }

    // The notification of a wait amid what timers and cancellers do to it and to those behind it.
    method Race(state: WaitState, env: Interference, i: nat, ghost queue: seq<WaitState>, ghost now: seq<View>)
      returns (claimed: bool)
      requires NoDuplicates(queue) && i < |queue| && state == queue[i] && waitAwakes == queue[i + 1..]
      requires now == Views(queue)
      modifies state, waitAwakes
      ensures Views(queue) == Turned(now, env, i) && (claimed <==> Taken(now[i], env, i))
      ensures state.Snap() == if claimed then Told(now[i]) else Suffer(now[i], env(i, i))
      ensures forall j :: 0 <= j < |waitAwakes| ==>
                waitAwakes[j].Snap() == Suffer(old(waitAwakes[j].Snap()), env(i, i + 1 + j))
    {
      assert [state] + waitAwakes == queue[i..];
      claimed := NotifyAmid(state, waitAwakes, env, i);
      assert forall j :: i < j < |queue| ==> queue[j] == waitAwakes[j - i - 1];
    }

    // A claim that timers and cancellers may have made since it was `was`.
    static ghost predicate MayHaveLeft(now: Claim, was: Claim) {
      now == was || (was == Unclaimed && now in {TimedOut, Cancelled})
    }

    // The protocol catches up with the wait in hand and with those in the queue.
    ghost method FollowNotice(state: WaitState, claimed: bool)
      requires Traced() && (sys.pc.SignalPopped? || sys.pc.BroadcastPopped?) && sys.pc.w < |sys.waiters|
      requires |waitAwakes| == |sys.queue| && NoDuplicates(waitAwakes)
      requires forall j :: 0 <= j < |waitAwakes| ==>
                 && waitAwakes[j].Waiting() && sys.queue[j] < |sys.waiters|
                 && MayHaveLeft(waitAwakes[j].claim, sys.waiters[sys.queue[j]].claim)
      requires if claimed then sys.waiters[sys.pc.w].claim == Unclaimed
               else state.claim in {TimedOut, Cancelled} && MayHaveLeft(state.claim, sys.waiters[sys.pc.w].claim)
      modifies this`steps, this`sys
      ensures Traced() && old(steps) < steps && ShowsQueue() && sys.counter == old(sys).counter
      ensures sys.pc == if old(sys.pc).BroadcastPopped? then P.Broadcasting
                        else if claimed then P.Free else P.Signalling
    {
      ghost var w := sys.pc.w;
      TracedIsDistinct();
      FollowExpiries();
      if !claimed {
        Take(if state.claim == TimedOut then P.Timeout(w) else P.Cancel(w));
      }
      Take(P.Continue);
    }

    // The protocol takes note of what timers and cancellers did to the waits in the queue.
    ghost method FollowExpiries()
      requires Traced() && Distinct() && (sys.pc.SignalPopped? || sys.pc.BroadcastPopped?)
      requires |waitAwakes| == |sys.queue| && forall j :: 0 <= j < |sys.queue| ==> sys.queue[j] < |sys.waiters|
      modifies this`steps, this`sys
      ensures Traced() && old(steps) <= steps
      ensures sys == old(sys).(waiters := sys.waiters) && |sys.waiters| == |old(sys).waiters|
      ensures sys.waiters[sys.pc.w] == old(sys).waiters[sys.pc.w]
      ensures forall j :: 0 <= j < |waitAwakes| ==>
                sys.waiters[sys.queue[j]] == Followed(waitAwakes[j].claim, old(sys).waiters[sys.queue[j]])
    {
      for i := 0 to |waitAwakes|
        invariant Traced() && old(steps) <= steps
        invariant sys == old(sys).(waiters := sys.waiters) && |sys.waiters| == |old(sys).waiters|
        invariant sys.waiters[sys.pc.w] == old(sys).waiters[sys.pc.w]
        invariant forall j :: 0 <= j < i ==>
                    sys.waiters[sys.queue[j]] == Followed(waitAwakes[j].claim, old(sys).waiters[sys.queue[j]])
        invariant forall j :: i <= j < |waitAwakes| ==> sys.waiters[sys.queue[j]] == old(sys).waiters[sys.queue[j]]
      {
        if waitAwakes[i].claim in {TimedOut, Cancelled} {
          Take(if waitAwakes[i].claim == TimedOut then P.Timeout(sys.queue[i]) else P.Cancel(sys.queue[i]));
        }
      }
    }

    static ghost function Followed(now: Claim, x: P.Waiter): P.Waiter {
      if x.claim == Unclaimed && now in {TimedOut, Cancelled} then P.Waiter(now, false) else x
    }
  }
}
