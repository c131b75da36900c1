/**
 The mutex object, with timers and cancellers acting between the instructions of the draining loop. The
 ghost field `steps` is a run of the protocol that the object has gone through: its owner, its counter, its
 queue and the claims of the waits in it are those at the end of that run.
 */
module Mutex {
  import opened HandOff
  import opened Prelude
  import opened WaitState
  import P = MutexProtocol

  class Mutex {
    var owner: Option<nat>
    var counter: int
    var waitAwakes: seq<WaitState>
    ghost var steps: seq<P.Step>
    ghost var sys: P.Sys

    // ---- the object shows a state of the protocol ----

    static ghost predicate Agrees(s: WaitState, x: P.Waiter)
      reads s
    {
      P.Waiter(s.root, s.claim, s.granted) == x
    }

    // `sys` is where the run leads. The quantifier keeps the run folded until a proof mentions it.
    ghost predicate Traced()
      reads this
    {
      forall run :: run == steps ==> P.Exec(run) == sys
    }

    // The queue holds the waits that the protocol's queue numbers.
    ghost predicate ShowsQueue()
      reads this, waitAwakes
    {
      && NoDuplicates(waitAwakes) && |waitAwakes| == |sys.queue|
      && forall j :: 0 <= j < |waitAwakes| ==>
           sys.queue[j] < |sys.waiters| && Agrees(waitAwakes[j], sys.waiters[sys.queue[j]])
    }

    ghost predicate Shows()
      reads this, waitAwakes
    {
      Traced() && ShowsQueue() && owner == sys.owner && counter == sys.counter
    }

    // What holds whenever the mutex lock is free.
    ghost predicate Valid()
      reads this, waitAwakes
    {
      && Shows() && sys.pc == P.Free
      && counter >= 0
      && (owner == None <==> counter == 0)
      && (owner == None ==> waitAwakes == [])
      && forall s :: s in waitAwakes ==> s.Waiting()
    }

    constructor ()
      ensures Valid() && owner == None && waitAwakes == [] && steps == []
    {
      owner, counter, waitAwakes := None, 0, [];
      steps, sys := [], P.Init();
    }

    // The protocol takes a step.
    ghost method Take(step: P.Step)
      requires Traced()
      modifies this`steps, this`sys
      ensures Traced() && sys == P.Next(old(sys), step) && steps == old(steps) + [step]
    {
      assert P.Exec(steps) == sys;
      assert (steps + [step])[..|steps|] == steps;
      steps := steps + [step];
      sys := P.Next(sys, step);
    }

    lemma TracedKeepsInv()
      requires Traced()
      ensures P.Inv(sys)
    {
      P.ExecKeepsInv(steps);
    }

    // The numbers in the queue and in the hand are all different.
    ghost predicate Distinct()
      reads this
    {
      && (forall i, j :: 0 <= i < j < |sys.queue| ==> sys.queue[i] != sys.queue[j])
      && (sys.pc.Counted? ==> sys.pc.w < |sys.waiters| && forall j :: 0 <= j < |sys.queue| ==> sys.queue[j] != sys.pc.w)
    }

    lemma TracedIsDistinct()
      requires Traced()
      ensures Distinct()
    {
      TracedKeepsInv();
    }

    lemma ShowsMakesValid()
      requires Shows() && sys.pc == P.Free
      ensures Valid()
    {
      TracedKeepsInv();
    }

    method TryLockLockless(root: nat) returns (ok: bool)
      requires Valid()
      modifies this`owner, this`counter, this`steps, this`sys
      ensures Valid() && steps == old(steps) + [P.TryLock(root)] && sys == P.Next(old(sys), P.TryLock(root))
      ensures ok <==> old(owner) in {None, Some(root)}
      ensures ok ==> owner == Some(root) && counter == old(counter) + 1
      ensures !ok ==> owner == old(owner) && counter == old(counter) && sys == old(sys)
    {
      Take(P.TryLock(root));
      if owner == None {
        owner := Some(root);
        counter := counter + 1;
        return true;
      }
      if owner == Some(root) {
        counter := counter + 1;
        return true;
      }
      return false;
    }

    /** `lock_awaiter::await_suspend2`: lock at once, or join the end of the queue. */
    method AwaitSuspend(root: nat) returns (state: WaitState?)
      requires Valid()
      modifies this
      ensures Valid() && sys == P.Next(old(sys), P.AwaitLock(root))
      ensures state == null <==> old(owner) in {None, Some(root)}
      ensures state == null ==>
                owner == Some(root) && counter == old(counter) + 1 && waitAwakes == old(waitAwakes)
      ensures state != null ==>
                fresh(state) && state.Snap() == View(root, Unclaimed, true, true, 0) &&
                waitAwakes == old(waitAwakes) + [state] && owner == old(owner) && counter == old(counter)
    {
      var ok := TryLockLockless(root);
      if ok {
        return null;
      }
      state := new WaitState(root);
      waitAwakes := waitAwakes + [state];
      Take(P.AwaitLock(root));
      ShowsMakesValid();
    }

    /** A timer or a canceller acts on the wait at position `j` of the queue, without the mutex lock. */
    method Expire(j: nat, cancel: bool)
      requires Valid() && j < |waitAwakes|
      modifies this`steps, this`sys, waitAwakes[j]
      ensures Valid()
      ensures waitAwakes[j].Snap() == Suffer(old(waitAwakes[j].Snap()), if cancel then Cancel else TimeOut)
      ensures sys == P.Next(old(sys), if cancel then P.Cancel(old(sys).queue[j]) else P.Timeout(old(sys).queue[j]))
    {
      TracedIsDistinct();
      if cancel {
        waitAwakes[j].OnCancel();
      } else {
        var _ := waitAwakes[j].OnTimeout();
      }
      Take(if cancel then P.Cancel(sys.queue[j]) else P.Timeout(sys.queue[j]));
      ShowsMakesValid();
    }

    /**
     Unlock by `root`, while timers and cancellers do `env`. Giving up the last lock hands the mutex to the
     first waiter of the queue that was unclaimed and that they spare until its turn, or, if there is none,
     to nobody.
     */
    method Unlock(root: nat, env: Interference) returns (ok: bool)
      requires Valid()
      modifies this, waitAwakes
      ensures Valid() && old(steps) < steps
      ensures ok <==> old(owner) == Some(root)
      ensures !ok ==>
                owner == old(owner) && counter == old(counter) && waitAwakes == old(waitAwakes) && sys == old(sys) &&
                unchanged(waitAwakes)
      ensures ok && old(counter) > 1 ==>
                owner == old(owner) && counter == old(counter) - 1 && waitAwakes == old(waitAwakes) &&
                unchanged(waitAwakes)
      ensures ok && old(counter) == 1 ==> Drained(old(waitAwakes), old(Views(waitAwakes)), env)
    {
      ghost var before := Views(waitAwakes);
      if owner != Some(root) {
        Take(P.Unlock(root));
        return false;
      }
      counter := counter - 1;
      if counter == 0 {
        owner := None;
        Take(P.Unlock(root));
        Drain(env, before);
      } else {
        Take(P.Unlock(root));
      }
      return true;
    }

    // The mutex went to the first live waiter of `queue`, whose waits looked like `before`.
    ghost predicate Drained(queue: seq<WaitState>, before: seq<View>, env: Interference)
      requires |before| == |queue|
      reads this, queue
    {
      var k := FirstLive(before, env, 0);
      && HandedToFirst(before, Views(queue), env, k)
      && if k < |queue| then
           waitAwakes == queue[k + 1..] && owner == Some(before[k].root) && counter == 1
         else
           waitAwakes == [] && owner == None && counter == 0
    }

    // The loop of `Unlock`, entered with the mutex already given up.
    method Drain(env: Interference, ghost before: seq<View>)
      requires Shows() && sys.pc == P.Draining && owner == None && counter == 0 && before == Views(waitAwakes)
      modifies this, waitAwakes
      ensures Valid() && old(steps) <= steps && Drained(old(waitAwakes), before, env)
    {
      var claimed, k, after := DrainLoop(env, before);
      HandedToFirstIsUnique(before, after, env, k);
      if !claimed {
        Take(P.Continue);
      }
      ShowsMakesValid();
    }

    // It ends with the first waiter it notifies, or with an empty queue.
    method DrainLoop(env: Interference, ghost before: seq<View>)
      returns (claimed: bool, ghost k: nat, ghost now: seq<View>)
      requires Shows() && sys.pc == P.Draining && owner == None && counter == 0 && before == Views(waitAwakes)
      modifies this, waitAwakes
      ensures Shows() && old(steps) <= steps && sys.pc == if claimed then P.Free else P.Draining
      ensures now == Views(old(waitAwakes)) && HandedToFirst(before, now, env, k) && (claimed <==> k < |before|)
      ensures if claimed then
                waitAwakes == old(waitAwakes)[k + 1..] && owner == Some(before[k].root) && counter == 1
              else
                waitAwakes == [] && owner == None && counter == 0
    {
      ghost var queue := waitAwakes;
      now := before;
      var i := 0;
      while waitAwakes != []
        invariant Shows() && sys.pc == P.Draining && old(steps) <= steps
        invariant i <= |queue| && waitAwakes == queue[i..] && owner == None && counter == 0
        invariant now == Views(queue) && InProgress(before, now, env, i)
        decreases |waitAwakes|
      {
        TurnGoesOn(before, now, env, i);
        claimed := Turn(i, env, queue, now);
        now := Turned(now, env, i);
        if claimed {
          return claimed, i, now;
        }
        i := i + 1;
      }
      return false, i, now;
    }

    // Turn `i` of the loop.
    method Turn(i: nat, env: Interference, ghost queue: seq<WaitState>, ghost now: seq<View>) returns (claimed: bool)
      requires Shows() && sys.pc == P.Draining && owner == None && counter == 0
      requires i < |queue| && waitAwakes == queue[i..] && NoDuplicates(queue) && now == Views(queue)
      modifies this, waitAwakes
      ensures Shows() && old(steps) <= steps && waitAwakes == queue[i + 1..]
      ensures Views(queue) == Turned(now, env, i) && (claimed <==> Taken(now[i], env, i))
      ensures claimed ==> owner == Some(queue[i].root) && counter == 1 && sys.pc == P.Free
      ensures !claimed ==> owner == None && counter == 0 && sys.pc == P.Draining
    {
      var state := PopFirst();
      assert waitAwakes == queue[i + 1..] && state == queue[i];
      claimed := NotifyHand(state, env, i, queue, now);
    }

    // The first half of a turn of the loop: the first waiter's root becomes the owner.
    method PopFirst() returns (state: WaitState)
      requires Shows() && sys.pc == P.Draining && owner == None && counter == 0 && waitAwakes != []
      modifies this
      ensures Shows() && old(steps) < steps
      ensures state == old(waitAwakes)[0] && waitAwakes == old(waitAwakes)[1..]
      ensures owner == Some(state.root) && counter == 1 && InHand(state)
    {
      TakeHand();
      state := waitAwakes[0];
      waitAwakes := waitAwakes[1..];
      owner := Some(state.root);
      counter := counter + 1;
      assert state.root == sys.waiters[sys.pc.w].root;
      TracedKeepsInv();
    }

    ghost predicate InHand(state: WaitState)
      reads this, state
    {
      sys.pc.Counted? && sys.pc.w < |sys.waiters| && Agrees(state, sys.waiters[sys.pc.w]) && state.Waiting()
    }

    // The second half: it is notified, unless a timer or a canceller has claimed it; then the mutex is free again.
    method NotifyHand(state: WaitState, env: Interference, i: nat, ghost queue: seq<WaitState>, ghost now: seq<View>)
      returns (claimed: bool)
      requires Shows() && InHand(state) && counter == 1
      requires NoDuplicates(queue) && i < |queue| && state == queue[i] && waitAwakes == queue[i + 1..]
      requires now == Views(queue)
      modifies this, state, waitAwakes
      ensures Shows() && waitAwakes == old(waitAwakes) && old(steps) < steps
      ensures Views(queue) == Turned(now, env, i) && (claimed <==> Taken(now[i], env, i))
      ensures claimed ==> owner == old(owner) && counter == 1 && sys.pc == P.Free
      ensures !claimed ==> owner == None && counter == 0 && sys.pc == P.Draining
    {
      claimed := Race(state, env, i, queue, now);
      FollowNotice(state, claimed);
      if !claimed {
        owner := None;
        counter := counter - 1;
      }
    }

    // The notification of a wait amid what timers and cancellers do to it and to those behind it.
    method Race(state: WaitState, env: Interference, i: nat, ghost queue: seq<WaitState>, ghost now: seq<View>)
      returns (claimed: bool)
      requires NoDuplicates(queue) && i < |queue| && state == queue[i] && waitAwakes == queue[i + 1..]
      requires now == Views(queue)
      modifies state, waitAwakes
      ensures Views(queue) == Turned(now, env, i) && (claimed <==> Taken(now[i], env, i))
      ensures state.Snap() == if claimed then Told(now[i]) else Suffer(now[i], env(i, i))
      ensures forall j :: 0 <= j < |waitAwakes| ==>
                waitAwakes[j].Snap() == Suffer(old(waitAwakes[j].Snap()), env(i, i + 1 + j))
    {
      assert [state] + waitAwakes == queue[i..];
      claimed := NotifyAmid(state, waitAwakes, env, i);
      assert forall j :: i < j < |queue| ==> queue[j] == waitAwakes[j - i - 1];
    }

    // The protocol pops the first waiter, stores its root and counts its lock.
    ghost method TakeHand()
      requires Traced() && sys.pc == P.Draining && sys.queue != []
      modifies this`steps, this`sys
      ensures Traced() && old(steps) < steps
      ensures var w := old(sys).queue[0];
              && w < |old(sys).waiters|
              && sys == old(sys).(queue := old(sys).queue[1..], owner := Some(old(sys).waiters[w].root),
                                  counter := old(sys).counter + 1, pc := P.Counted(w))
    {
      TracedKeepsInv();
      Take(P.Continue);
      Take(P.Continue);
      Take(P.Continue);
    }

    // The protocol notifies the waiter in hand, or takes its lock back.
    ghost method TakeNotice(w: nat, claimed: bool)
      requires Traced() && sys.pc == P.Counted(w) && w < |sys.waiters|
      requires claimed <==> sys.waiters[w].claim == Unclaimed
      modifies this`steps, this`sys
      ensures Traced() && old(steps) < steps
      ensures sys.queue == old(sys).queue
      ensures claimed ==>
                && sys.waiters == old(sys).waiters[w := old(sys).waiters[w].(claim := Notified, granted := true)]
                && sys.pc == P.Free && sys.owner == old(sys).owner && sys.counter == old(sys).counter
      ensures !claimed ==>
                && sys.waiters == old(sys).waiters
                && sys.pc == P.Draining && sys.owner == None && sys.counter == old(sys).counter - 1
    {
      Take(P.Continue);
      if !claimed {
        Take(P.Continue);
        Take(P.Continue);
      }
    }

    // A wait that timers and cancellers may have acted on since it agreed with `x`.
    static ghost predicate MayHaveLeft(s: WaitState, x: P.Waiter)
      reads s
    {
      Agrees(s, x) || (s.claim in {TimedOut, Cancelled} && Agrees(s, Followed(s.claim, x)))
    }

    // What a waiter of the protocol looks like once it has followed a claim by a timer or a canceller.
    static ghost function Followed(now: Claim, x: P.Waiter): P.Waiter {
      if x.claim == Unclaimed && now in {TimedOut, Cancelled} then x.(claim := now, granted := false) else x
    }

    // The protocol catches up with the wait in hand and with those in the queue.
    ghost method FollowNotice(state: WaitState, claimed: bool)
      requires Traced() && sys.pc.Counted? && sys.pc.w < |sys.waiters| && |waitAwakes| == |sys.queue|
      requires forall j :: 0 <= j < |waitAwakes| ==>
                 sys.queue[j] < |sys.waiters| && MayHaveLeft(waitAwakes[j], sys.waiters[sys.queue[j]])
      requires if claimed then sys.waiters[sys.pc.w].claim == Unclaimed
               else state.claim in {TimedOut, Cancelled} && MayHaveLeft(state, sys.waiters[sys.pc.w])
      requires NoDuplicates(waitAwakes)
      modifies this`steps, this`sys
      ensures Traced() && old(steps) < steps && ShowsQueue()
      ensures claimed ==> sys.pc == P.Free && sys.owner == old(sys).owner && sys.counter == old(sys).counter
      ensures !claimed ==> sys.pc == P.Draining && sys.owner == None && sys.counter == old(sys).counter - 1
    {
      ghost var w := sys.pc.w;
      TracedIsDistinct();
      FollowExpiries();
      if !claimed {
        Take(if state.claim == TimedOut then P.Timeout(w) else P.Cancel(w));
      }
      TakeNotice(w, claimed);
    }

    // The protocol takes note of what timers and cancellers did to the waits in the queue.
    ghost method FollowExpiries()
      requires Traced() && Distinct() && sys.pc.Counted? && |waitAwakes| == |sys.queue|
      requires forall j :: 0 <= j < |sys.queue| ==> sys.queue[j] < |sys.waiters|
      modifies this`steps, this`sys
      ensures Traced() && old(steps) <= steps
      ensures sys == old(sys).(waiters := sys.waiters, log := sys.log) && |sys.waiters| == |old(sys).waiters|
      ensures sys.waiters[sys.pc.w] == old(sys).waiters[sys.pc.w]
      ensures forall j :: 0 <= j < |waitAwakes| ==>
                sys.waiters[sys.queue[j]] == Followed(waitAwakes[j].claim, old(sys).waiters[sys.queue[j]])
    {
      for i := 0 to |waitAwakes|
        invariant Traced() && old(steps) <= steps
        invariant sys == old(sys).(waiters := sys.waiters, log := sys.log) && |sys.waiters| == |old(sys).waiters|
        invariant sys.waiters[sys.pc.w] == old(sys).waiters[sys.pc.w]
        invariant forall j :: 0 <= j < i ==>
                    sys.waiters[sys.queue[j]] == Followed(waitAwakes[j].claim, old(sys).waiters[sys.queue[j]])
        invariant forall j :: i <= j < |waitAwakes| ==> sys.waiters[sys.queue[j]] == old(sys).waiters[sys.queue[j]]
      {
        if waitAwakes[i].claim in {TimedOut, Cancelled} {
          Take(if waitAwakes[i].claim == TimedOut then P.Timeout(sys.queue[i]) else P.Cancel(sys.queue[i]));
        }
      }
    }
  }
}
