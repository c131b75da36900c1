/**
 The claim word of a suspended lock or event wait: whoever clears it first, notifier, timer or
 canceller, decides the outcome. Shared by the mutex and the event.
 */
module WaitState {
  import opened HandOff
  import opened Prelude

  class WaitState {
    const root: nat       // the root coroutine on whose behalf the wait runs
    var claim: Claim      // Unclaimed as long as the claim word is set
    var granted: bool     // what the awaiter reports when it resumes
    var hasHandler: bool  // a coroutine is suspended here
    var enqueued: nat     // how often the scheduler was asked to resume it

    constructor (root: nat)
      ensures this.root == root && claim == Unclaimed && granted && hasHandler && enqueued == 0
    {
      this.root := root;
      claim, granted, hasHandler, enqueued := Unclaimed, true, true, 0;
    }

    ghost function Snap(): View
      reads this
    {
      View(root, claim, granted, hasHandler, enqueued)
    }

    // A wait that nobody has notified; it reports success only if nobody has claimed it yet.
    ghost predicate Waiting()
      reads this
    {
      claim != Notified && (granted <==> claim == Unclaimed)
    }

    // Exactly the first of the three calls below succeeds.
    method OnNotify() returns (ok: bool)
      modifies this`claim, this`granted, this`enqueued
      ensures ok <==> old(claim) == Unclaimed
      ensures ok ==> claim == Notified && granted && enqueued == old(enqueued) + (if hasHandler then 1 else 0)
      ensures !ok ==> unchanged(this)
    {
      if claim != Unclaimed {
        return false;
      }
      claim := Notified;
      granted := true;
      if hasHandler {
        enqueued := enqueued + 1;
      }
      return true;
    }

    method OnTimeout() returns (ok: bool)
      modifies this`claim, this`granted, this`enqueued
      ensures ok <==> old(claim) == Unclaimed
      ensures ok ==> claim == TimedOut && !granted && enqueued == old(enqueued) + (if hasHandler then 1 else 0)
      ensures !ok ==> unchanged(this)
    {
      if claim != Unclaimed {
        return false;
      }
      claim := TimedOut;
      granted := false;
      if hasHandler {
        enqueued := enqueued + 1;
      }
      return true;
    }

    method OnCancel()
      modifies this`claim, this`granted, this`hasHandler
      ensures old(claim) == Unclaimed ==> claim == Cancelled && !granted && !hasHandler
      ensures enqueued == old(enqueued)
      ensures old(claim) != Unclaimed ==> unchanged(this)
    {
      if claim == Unclaimed {
        claim := Cancelled;
        granted := false;
        hasHandler := false;
      }
    }
  }

  ghost function Views(waits: seq<WaitState>): (views: seq<View>)
    reads waits
    ensures |views| == |waits| && forall i :: 0 <= i < |waits| ==> views[i] == waits[i].Snap()
  {
    seq(|waits|, i requires 0 <= i < |waits| reads waits => waits[i].Snap())
  }

  method Befall(wait: WaitState, deed: Deed)
    modifies wait
    ensures wait.Snap() == Suffer(old(wait.Snap()), deed)
  {
    match deed
    case Leave =>
    case TimeOut => var _ := wait.OnTimeout();
    case Cancel => wait.OnCancel();
  }

  /** Timers and cancellers act on the waits at the positions from `t` on, without any lock, in turn `t`. */
  method Interfere(waits: seq<WaitState>, env: Interference, t: nat)
    requires NoDuplicates(waits)
    modifies waits
    ensures forall i :: 0 <= i < |waits| ==> waits[i].Snap() == Suffer(old(waits[i].Snap()), env(t, t + i))
  {
    for i := 0 to |waits|
      invariant forall j :: 0 <= j < i ==> waits[j].Snap() == Suffer(old(waits[j].Snap()), env(t, t + j))
      invariant forall j :: i <= j < |waits| ==> waits[j].Snap() == old(waits[j].Snap())
    {
      Befall(waits[i], env(t, t + i));
    }
  }

  /**
   Notify the wait at position `t` in its turn while timers and cancellers act on it and on those behind it:
   it succeeds exactly if nobody claimed the wait before and nobody does now.
   */
  method NotifyAmid(state: WaitState, others: seq<WaitState>, env: Interference, t: nat) returns (ok: bool)
    requires NoDuplicates([state] + others)
    modifies state, others
    ensures ok <==> old(state.claim) == Unclaimed && env(t, t) == Leave
    ensures state.Snap() == if ok then Told(old(state.Snap())) else Suffer(old(state.Snap()), env(t, t))
    ensures forall i :: 0 <= i < |others| ==>
              others[i].Snap() == Suffer(old(others[i].Snap()), env(t, t + 1 + i))
  {
    ghost var all := [state] + others;
    assert all[0] == state && forall i :: 0 <= i < |others| ==> all[1 + i] == others[i];
    Interfere([state] + others, env, t);
    assert state.Snap() == Suffer(old(all[0].Snap()), env(t, t));
    ok := state.OnNotify();
  }
}
