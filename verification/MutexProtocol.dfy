/**
 The recursive mutex as a step machine. A section under the mutex lock is one step, except the draining
 loop of `unlock`: each of its instructions is a step of its own, so a timeout or a cancellation, which
 claims a waiter without the lock, may fall between any two of them.
 A waiter's number is its position in the order of enqueueing.
 */
module MutexProtocol {
  import opened Prelude
  import opened HandOff

  type Root = nat

  // `granted` is whether the awaiter still sees the mutex, that is, whether its lock call reports success.
  datatype Waiter = Waiter(root: Root, claim: Claim, granted: bool)

  // Where the draining `unlock` stands; `Free` when nobody is inside it.
  datatype Pc =
    | Free
    | Draining          // at the test of the queue
    | Popped(w: nat)    // about to store the new owner
    | Stored(w: nat)    // about to count the new lock
    | Counted(w: nat)   // about to notify
    | Failed(w: nat)    // lost the race, about to clear the owner
    | Cleared(w: nat)   // about to take the count back

  datatype Entry =
    | Enqueue(w: nat)
    | Acquire(r: Root)  // lock of a free mutex
    | Reenter(r: Root)  // recursive lock
    | HandOff(w: nat)
    | Release(r: Root)
    | Expire(w: nat)    // timeout or cancellation

  datatype Sys = Sys(owner: Option<Root>, counter: int, queue: seq<nat>, waiters: seq<Waiter>, pc: Pc, log: seq<Entry>)

  datatype Step =
    | TryLock(r: Root)
    | AwaitLock(r: Root)
    | Unlock(r: Root)
    | Continue
    | Timeout(w: nat)
    | Cancel(w: nat)

  function Init(): Sys {
    Sys(None, 0, [], [], Free, [])
  }

  // The test under the lock: None when the mutex belongs to another root.
  function TryLockLockless(s: Sys, r: Root): Option<Sys> {
    if s.owner == None then Some(s.(owner := Some(r), counter := s.counter + 1, log := s.log + [Acquire(r)]))
    else if s.owner == Some(r) then Some(s.(counter := s.counter + 1, log := s.log + [Reenter(r)]))
    else None
  }

  function EnqueueWaiter(s: Sys, r: Root): Sys {
    var w := |s.waiters|;
    s.(waiters := s.waiters + [Waiter(r, Unclaimed, true)], queue := s.queue + [w], log := s.log + [Enqueue(w)])
  }

  function UnlockEntry(s: Sys, r: Root): Sys {
    if s.owner != Some(r) then s
    else
      var s' := s.(counter := s.counter - 1, log := s.log + [Release(r)]);
      if s.counter == 1 then s'.(owner := None, pc := Draining) else s'
  }

  function Drain(s: Sys): Sys {
    match s.pc
    case Free => s
    case Draining =>
      if s.queue == [] then s.(pc := Free) else s.(queue := s.queue[1..], pc := Popped(s.queue[0]))
    case Popped(w) =>
      if w < |s.waiters| then s.(owner := Some(s.waiters[w].root), pc := Stored(w)) else s
    case Stored(w) => s.(counter := s.counter + 1, pc := Counted(w))
    case Counted(w) =>
      if w < |s.waiters| && s.waiters[w].claim == Unclaimed then
        s.(waiters := s.waiters[w := s.waiters[w].(claim := Notified, granted := true)],
           pc := Free, log := s.log + [HandOff(w)])
      else s.(pc := Failed(w))
    case Failed(w) => s.(owner := None, pc := Cleared(w))
    case Cleared(w) => s.(counter := s.counter - 1, pc := Draining)
  }

  function ExpireWaiter(s: Sys, w: nat, how: Claim): Sys {
    if w < |s.waiters| && s.waiters[w].claim == Unclaimed then
      s.(waiters := s.waiters[w := s.waiters[w].(claim := how, granted := false)], log := s.log + [Expire(w)])
    else s
  }

  // A step that cannot be taken (the mutex lock is held by the draining `unlock`) leaves the state as it is.
  function Next(s: Sys, step: Step): Sys {
    match step
    case TryLock(r) =>
      if s.pc != Free then s
      else var t := TryLockLockless(s, r); if t.Some? then t.value else s
    case AwaitLock(r) =>
      if s.pc != Free then s
      else var t := TryLockLockless(s, r); if t.Some? then t.value else EnqueueWaiter(s, r)
    case Unlock(r) => if s.pc != Free then s else UnlockEntry(s, r)
    case Continue => Drain(s)
    case Timeout(w) => ExpireWaiter(s, w, TimedOut)
    case Cancel(w) => ExpireWaiter(s, w, Cancelled)
  }

  function Exec(steps: seq<Step>): Sys {
    if steps == [] then Init() else Next(Exec(steps[..|steps| - 1]), steps[|steps| - 1])
  }

  // ---- what the log says ----

  function GrantTo(e: Entry, waiters: seq<Waiter>, r: Root): int {
    match e
    case Acquire(q) => if q == r then 1 else 0
    case Reenter(q) => if q == r then 1 else 0
    case HandOff(w) => if w < |waiters| && waiters[w].root == r then 1 else 0
    case Release(q) => if q == r then -1 else 0
    case _ => 0
  }

  // Successful locks minus unlocks of root `r` according to the log.
  function Held(log: seq<Entry>, waiters: seq<Waiter>, r: Root): int {
    if log == [] then 0
    else Held(log[..|log| - 1], waiters, r) + GrantTo(log[|log| - 1], waiters, r)
  }

  ghost predicate Claims(e: Entry, w: nat) {
    e == HandOff(w) || e == Expire(w)
  }

  ghost predicate ClaimedIn(log: seq<Entry>, from: nat, w: nat) {
    exists i :: from <= i < |log| && Claims(log[i], w)
  }

  ghost predicate IsGrantToOutsider(e: Entry, w: nat) {
    e.Acquire? || (e.HandOff? && e.w > w)
  }

  // Between the enqueueing of `w` and its claim, no free mutex is taken and nobody enqueued later is served.
  ghost predicate Fifo(log: seq<Entry>) {
    forall i, j, w: nat :: 0 <= i < j < |log| && log[i] == Enqueue(w) && !ClaimedIn(log[..j], i, w)
      ==> !IsGrantToOutsider(log[j], w)
  }

  ghost predicate EnqueuedInOrder(log: seq<Entry>) {
    forall i, j :: 0 <= i < j < |log| && log[i].Enqueue? && log[j].Enqueue? ==> log[i].w < log[j].w
  }

  // ---- the invariant ----

  // The hand the draining `unlock` holds: the popped waiter, if any.
  ghost predicate InHand(pc: Pc, w: nat) {
    (pc.Popped? || pc.Stored? || pc.Counted? || pc.Failed? || pc.Cleared?) && pc.w == w
  }

  ghost predicate QueueInv(s: Sys) {
    && |s.queue| <= |s.waiters|
    && (forall i :: 0 <= i < |s.queue| ==> s.queue[i] == |s.waiters| - |s.queue| + i)
    && (!s.pc.Free? && !s.pc.Draining? ==> |s.queue| < |s.waiters| && s.pc.w == |s.waiters| - |s.queue| - 1)
  }

  ghost predicate OwnerInv(s: Sys)
    requires QueueInv(s)
  {
    match s.pc
    case Free => s.counter >= 0 && (s.owner == None <==> s.counter == 0) && (s.owner == None ==> s.queue == [])
    case Draining => s.owner == None && s.counter == 0
    case Popped(w) => s.owner == None && s.counter == 0
    case Stored(w) => s.owner == Some(s.waiters[w].root) && s.counter == 0
    case Counted(w) => s.owner == Some(s.waiters[w].root) && s.counter == 1
    case Failed(w) => s.owner == Some(s.waiters[w].root) && s.counter == 1 && s.waiters[w].claim != Unclaimed
    case Cleared(w) => s.owner == None && s.counter == 1 && s.waiters[w].claim != Unclaimed
  }

  // A waiter off the queue and out of the hand has been claimed; one still queued has not been notified.
  ghost predicate ClaimInv(s: Sys) {
    && (forall w :: 0 <= w < |s.waiters| - |s.queue| && !InHand(s.pc, w) ==> s.waiters[w].claim != Unclaimed)
    && (forall w :: 0 <= w < |s.waiters| && (w >= |s.waiters| - |s.queue| || InHand(s.pc, w)) ==>
         s.waiters[w].claim != Notified)
    && (forall w :: 0 <= w < |s.waiters| ==>
         (s.waiters[w].granted <==> s.waiters[w].claim in {Unclaimed, Notified}))
  }

  // Each waiter's claim is on record exactly once.
  ghost predicate LogInv(log: seq<Entry>, waiters: seq<Waiter>) {
    && (forall i :: 0 <= i < |log| ==> Supported(log[i], waiters))
    && (forall i, j :: 0 <= i < j < |log| ==> !SameClaim(log[i], log[j]))
    && (forall w :: 0 <= w < |waiters| && waiters[w].claim != Unclaimed ==> ClaimedIn(log, 0, w))
    && EnqueuedInOrder(log)
  }

  // What an entry says of a waiter shows in the waiter.
  ghost predicate Supported(e: Entry, waiters: seq<Waiter>) {
    match e
    case Enqueue(w) => w < |waiters|
    case HandOff(w) => w < |waiters| && waiters[w].claim == Notified
    case Expire(w) => w < |waiters| && waiters[w].claim in {TimedOut, Cancelled}
    case _ => true
  }

  // A claim of a waiter that was claimed before, or that enqueues only afterwards.
  ghost predicate SameClaim(e: Entry, later: Entry) {
    && (e.HandOff? || e.Expire?)
    && (later.Enqueue? || later.HandOff? || later.Expire?)
    && e.w == later.w
  }

  // The locks the mutex shows for `r` while its lock is free.
  function Shown(s: Sys, r: Root): int {
    if s.pc == Free && s.owner == Some(r) then s.counter else 0
  }

  ghost predicate HeldInv(s: Sys) {
    forall r: Root :: Held(s.log, s.waiters, r) == Shown(s, r)
  }

  ghost predicate Inv(s: Sys) {
    QueueInv(s) && OwnerInv(s) && ClaimInv(s) && LogInv(s.log, s.waiters) && HeldInv(s) && Fifo(s.log)
  }

  // ---- preservation, part by part ----

  lemma {:induction false} HeldIgnores(log: seq<Entry>, before: seq<Waiter>, after: seq<Waiter>, r: Root)
    requires |before| <= |after|
    requires forall i :: 0 <= i < |before| ==> before[i].root == after[i].root
    requires forall i :: 0 <= i < |log| && log[i].HandOff? ==> log[i].w < |before|
    ensures Held(log, before, r) == Held(log, after, r)
  {
    if log != [] {
      HeldIgnores(log[..|log| - 1], before, after, r);
    }
  }

  lemma HeldAppend(log: seq<Entry>, e: Entry, waiters: seq<Waiter>, r: Root)
    ensures Held(log + [e], waiters, r) == Held(log, waiters, r) + GrantTo(e, waiters, r)
  {
  }

  lemma NextKeepsQueue(s: Sys, step: Step)
    requires QueueInv(s)
    ensures QueueInv(Next(s, step))
  {
  }

  lemma NextKeepsOwner(s: Sys, step: Step)
    requires QueueInv(s) && OwnerInv(s) && QueueInv(Next(s, step))
    ensures OwnerInv(Next(s, step))
  {
  }

  lemma NextKeepsClaims(s: Sys, step: Step)
    requires QueueInv(s) && OwnerInv(s) && ClaimInv(s)
    ensures ClaimInv(Next(s, step))
  {
  }

  // The four ways in which a step touches the log and the waiters.
  ghost predicate NothingLogged(s: Sys, s': Sys) {
    s'.log == s.log && s'.waiters == s.waiters
  }

  ghost predicate OwnerLogged(s: Sys, s': Sys, e: Entry) {
    (e.Acquire? || e.Reenter? || e.Release?) && s'.log == s.log + [e] && s'.waiters == s.waiters
  }

  ghost predicate EnqueueLogged(s: Sys, s': Sys, r: Root) {
    s'.log == s.log + [Enqueue(|s.waiters|)] && s'.waiters == s.waiters + [Waiter(r, Unclaimed, true)]
  }

  ghost predicate ClaimLogged(s: Sys, s': Sys, w: nat, e: Entry, how: Claim) {
    && w < |s.waiters| && s.waiters[w].claim == Unclaimed
    && ((e == HandOff(w) && how == Notified) || (e == Expire(w) && how in {TimedOut, Cancelled}))
    && s'.log == s.log + [e]
    && s'.waiters == s.waiters[w := Waiter(s.waiters[w].root, how, how == Notified)]
  }

  lemma NextLogs(s: Sys, step: Step)
    ensures var s' := Next(s, step);
            || NothingLogged(s, s')
            || (exists e :: OwnerLogged(s, s', e))
            || (exists r :: EnqueueLogged(s, s', r))
            || (exists w, e, how :: ClaimLogged(s, s', w, e, how))
  {
    var s' := Next(s, step);
    match step
    case TryLock(r) => assert OwnerLogged(s, s', Acquire(r)) || OwnerLogged(s, s', Reenter(r)) || s' == s;
    case AwaitLock(r) =>
      assert OwnerLogged(s, s', Acquire(r)) || OwnerLogged(s, s', Reenter(r)) || EnqueueLogged(s, s', r) || s' == s;
    case Unlock(r) => assert OwnerLogged(s, s', Release(r)) || s' == s;
    case Continue =>
      assert NothingLogged(s, s') || (s.pc.Counted? && ClaimLogged(s, s', s.pc.w, HandOff(s.pc.w), Notified));
    case Timeout(w) => assert s' == s || ClaimLogged(s, s', w, Expire(w), TimedOut);
    case Cancel(w) => assert s' == s || ClaimLogged(s, s', w, Expire(w), Cancelled);
  }

  // A step appends at most one entry and keeps the roots of the waiters.
  lemma NextAppends(s: Sys, step: Step)
    ensures var s' := Next(s, step);
            && (s'.log == s.log || (|s'.log| == |s.log| + 1 && s'.log == s.log + [s'.log[|s.log|]]))
            && |s.waiters| <= |s'.waiters|
            && forall w :: 0 <= w < |s.waiters| ==> s'.waiters[w].root == s.waiters[w].root
  {
  }

  // What the step's entry, if any, adds to the locks held by `r`.
  function Gain(s: Sys, s': Sys, r: Root): int {
    if |s'.log| > |s.log| then GrantTo(s'.log[|s.log|], s'.waiters, r) else 0
  }

  lemma HeldChangesByGain(s: Sys, step: Step, r: Root)
    requires LogInv(s.log, s.waiters)
    ensures var s' := Next(s, step);
            Held(s'.log, s'.waiters, r) == Held(s.log, s.waiters, r) + Gain(s, s', r)
  {
    var s' := Next(s, step);
    NextAppends(s, step);
    HeldIgnores(s.log, s.waiters, s'.waiters, r);
    if s'.log != s.log {
      HeldAppend(s.log, s'.log[|s.log|], s'.waiters, r);
    }
  }

  lemma ShownChangesByGain(s: Sys, step: Step, r: Root)
    requires QueueInv(s) && OwnerInv(s)
    ensures Shown(Next(s, step), r) == Shown(s, r) + Gain(s, Next(s, step), r)
  {
  }

  lemma NextKeepsHeld(s: Sys, step: Step)
    requires QueueInv(s) && OwnerInv(s) && LogInv(s.log, s.waiters) && HeldInv(s)
    ensures HeldInv(Next(s, step))
  {
    forall r: Root
      ensures Held(Next(s, step).log, Next(s, step).waiters, r) == Shown(Next(s, step), r)
    {
      HeldChangesByGain(s, step, r);
      ShownChangesByGain(s, step, r);
    }
  }

  lemma OwnerEntryKeepsLog(log: seq<Entry>, waiters: seq<Waiter>, e: Entry)
    requires LogInv(log, waiters) && (e.Acquire? || e.Reenter? || e.Release?)
    ensures LogInv(log + [e], waiters)
  {
    ClaimedStays(log, e);
  }

  lemma EnqueueEntryKeepsLog(log: seq<Entry>, waiters: seq<Waiter>, r: Root)
    requires LogInv(log, waiters)
    ensures LogInv(log + [Enqueue(|waiters|)], waiters + [Waiter(r, Unclaimed, true)])
  {
    ClaimedStays(log, Enqueue(|waiters|));
  }

  lemma ClaimEntryKeepsLog(log: seq<Entry>, waiters: seq<Waiter>, w: nat, e: Entry, how: Claim)
    requires LogInv(log, waiters) && w < |waiters| && waiters[w].claim == Unclaimed
    requires (e == HandOff(w) && how == Notified) || (e == Expire(w) && how in {TimedOut, Cancelled})
    ensures LogInv(log + [e], waiters[w := Waiter(waiters[w].root, how, how == Notified)])
  {
    ClaimedStays(log, e);
    assert Claims((log + [e])[|log|], w);
  }

  lemma ClaimedStays(log: seq<Entry>, e: Entry)
    ensures forall w: nat :: ClaimedIn(log, 0, w) ==> ClaimedIn(log + [e], 0, w)
  {
    forall w: nat | ClaimedIn(log, 0, w)
      ensures ClaimedIn(log + [e], 0, w)
    {
      var i :| 0 <= i < |log| && Claims(log[i], w);
      assert Claims((log + [e])[i], w);
    }
  }

  lemma NextKeepsLog(s: Sys, step: Step)
    requires LogInv(s.log, s.waiters)
    ensures LogInv(Next(s, step).log, Next(s, step).waiters)
  {
    var s' := Next(s, step);
    NextLogs(s, step);
    if e :| OwnerLogged(s, s', e) {
      OwnerEntryKeepsLog(s.log, s.waiters, e);
    } else if r :| EnqueueLogged(s, s', r) {
      EnqueueEntryKeepsLog(s.log, s.waiters, r);
    } else if w, e, how :| ClaimLogged(s, s', w, e, how) {
      ClaimEntryKeepsLog(s.log, s.waiters, w, e, how);
    }
  }

  // The entry about to be logged does not pass over an unclaimed waiter.
  lemma NextKeepsFifo(s: Sys, step: Step)
    requires Inv(s)
    ensures Fifo(Next(s, step).log)
  {
    var s' := Next(s, step);
    NextAppends(s, step);
    forall i, j, w: nat | 0 <= i < j < |s'.log| && s'.log[i] == Enqueue(w) && !ClaimedIn(s'.log[..j], i, w)
      ensures !IsGrantToOutsider(s'.log[j], w)
    {
      if j < |s.log| {
        assert s'.log[..j] == s.log[..j];
      } else {
        assert s'.log[..j] == s.log;
        assert s.waiters[w].claim == Unclaimed;
      }
    }
  }

  lemma {:induction false} ExecKeepsInv(steps: seq<Step>)
    ensures Inv(Exec(steps))
  {
    if steps != [] {
      var s, step := Exec(steps[..|steps| - 1]), steps[|steps| - 1];
      ExecKeepsInv(steps[..|steps| - 1]);
      NextKeepsQueue(s, step);
      NextKeepsOwner(s, step);
      NextKeepsClaims(s, step);
      NextKeepsLog(s, step);
      NextKeepsHeld(s, step);
      NextKeepsFifo(s, step);
    }
  }

  // ---- the theorems ----

  /**
   Over whole runs, whenever the mutex lock is free: nobody owns the mutex exactly when its counter is 0;
   then nobody waits; and each root's locks minus unlocks is the counter for the owner and 0 for all others.
   */
  lemma MutexInvariant(steps: seq<Step>)
    requires Exec(steps).pc == Free
    ensures var s := Exec(steps);
            && (s.owner == None <==> s.counter == 0)
            && (s.owner == None ==> s.queue == [])
            && forall r: Root :: Held(s.log, s.waiters, r) == if s.owner == Some(r) then s.counter else 0
  {
    ExecKeepsInv(steps);
  }

  /**
   Fairness over whole runs: while a waiter has not been claimed, the mutex is neither taken by a passer-by
   nor handed to anyone who enqueued after it.
   */
  lemma FifoHandOff(steps: seq<Step>, i: nat, j: nat, w: nat)
    requires i < j < |Exec(steps).log|
    requires Exec(steps).log[i] == Enqueue(w)
    requires !ClaimedIn(Exec(steps).log[..j], i, w)
    ensures !Exec(steps).log[j].Acquire?
    ensures Exec(steps).log[j].HandOff? ==>
              Exec(steps).log[j].w == w ||
              exists k :: 0 <= k < i && Exec(steps).log[k] == Enqueue(Exec(steps).log[j].w)
  {
    ExecKeepsInv(steps);
    var log := Exec(steps).log;
    if log[j].HandOff? && log[j].w != w {
      EveryWaiterWasEnqueued(steps, log[j].w);
      var k :| 0 <= k < |log| && log[k] == Enqueue(log[j].w);
      assert !IsGrantToOutsider(log[j], w);
      assert log[k].w < log[i].w;
      assert k < i;
    }
  }

  lemma {:induction false} EveryWaiterWasEnqueued(steps: seq<Step>, w: nat)
    requires w < |Exec(steps).waiters|
    ensures exists k :: 0 <= k < |Exec(steps).log| && Exec(steps).log[k] == Enqueue(w)
  {
    var s, step := Exec(steps[..|steps| - 1]), steps[|steps| - 1];
    ExecKeepsInv(steps[..|steps| - 1]);
    NextAppends(s, step);
    var s' := Next(s, step);
    if w < |s.waiters| {
      EveryWaiterWasEnqueued(steps[..|steps| - 1], w);
      var k :| 0 <= k < |s.log| && s.log[k] == Enqueue(w);
      assert s'.log[k] == Enqueue(w);
    } else {
      assert s'.log[|s.log|] == Enqueue(w);
    }
  }

  /** Exactly one of notification and expiry claims a waiter, and only a notified one is told that it has the lock. */
  lemma ClaimedExactlyOnce(steps: seq<Step>, w: nat)
    requires w < |Exec(steps).waiters| && Exec(steps).waiters[w].claim != Unclaimed
    ensures exists i :: 0 <= i < |Exec(steps).log| && Claims(Exec(steps).log[i], w) &&
              (forall j :: 0 <= j < |Exec(steps).log| && j != i ==> !Claims(Exec(steps).log[j], w)) &&
              (Exec(steps).log[i] == HandOff(w) <==> Exec(steps).waiters[w].claim == Notified) &&
              (Exec(steps).log[i] == HandOff(w) <==> Exec(steps).waiters[w].granted)
  {
    ExecKeepsInv(steps);
    var log := Exec(steps).log;
    var i :| 0 <= i < |log| && Claims(log[i], w);
    assert forall j :: 0 <= j < |log| && j != i ==> !Claims(log[j], w);
  }

  // What a step makes of the claim of an unclaimed waiter `w`.
  function ClaimBy(pc: Pc, step: Step, w: nat): Claim {
    if step == Timeout(w) then TimedOut
    else if step == Step.Cancel(w) then Cancelled
    else if step == Continue && pc == Counted(w) then Notified
    else Unclaimed
  }

  /**
   Who claims a waiter: it is notified only by the instruction of the loop that notifies it, and expires only by
   a timeout or a cancellation of its own; the first of these succeeds, and nothing changes the claim after it.
   */
  lemma ClaimedByItsOwnStepsOnly(s: Sys, step: Step, w: nat)
    requires w < |s.waiters|
    ensures w < |Next(s, step).waiters|
    ensures Next(s, step).waiters[w].claim ==
              if s.waiters[w].claim == Unclaimed then ClaimBy(s.pc, step, w) else s.waiters[w].claim
  {
  }

  /** Over whole runs: a waiter's claim was made by the step that came first, while nobody had claimed it. */
  lemma {:induction false} FirstClaimDecides(steps: seq<Step>, w: nat)
    requires w < |Exec(steps).waiters| && Exec(steps).waiters[w].claim != Unclaimed
    ensures exists k :: 0 <= k < |steps| && FirstClaimAt(steps, k, w) &&
                        Exec(steps).waiters[w].claim == ClaimBy(Exec(steps[..k]).pc, steps[k], w)
  {
    var n := |steps| - 1;
    var s := Exec(steps[..n]);
    if w < |s.waiters| {
      ClaimedByItsOwnStepsOnly(s, steps[n], w);
    }
    if w < |s.waiters| && s.waiters[w].claim != Unclaimed {
      FirstClaimDecides(steps[..n], w);
      var k :| 0 <= k < n && FirstClaimAt(steps[..n], k, w) &&
               s.waiters[w].claim == ClaimBy(Exec(steps[..n][..k]).pc, steps[..n][k], w);
      assert steps[..n][..k] == steps[..k];
      assert FirstClaimAt(steps, k, w);
    } else {
      assert FirstClaimAt(steps, n, w);
    }
  }

  // Step `k` finds the waiter unclaimed.
  ghost predicate FirstClaimAt(steps: seq<Step>, k: nat, w: nat)
    requires k < |steps|
  {
    w < |Exec(steps[..k]).waiters| && Exec(steps[..k]).waiters[w].claim == Unclaimed
  }

  /**
   How a draining `unlock` ends: by handing the mutex, locked once, to the root of a waiter that it claimed
   just now and that is first among the unclaimed; or with a free mutex and an empty queue.
   */
  lemma UnlockOutcome(steps: seq<Step>, step: Step)
    requires Exec(steps).pc != Free && Next(Exec(steps), step).pc == Free
    ensures var s, s' := Exec(steps), Next(Exec(steps), step);
            || (s'.owner == None && s'.counter == 0 && s'.queue == [] &&
                forall w :: 0 <= w < |s'.waiters| ==> s'.waiters[w].claim != Unclaimed)
            || (s.pc.Counted? && var w := s.pc.w;
                && w < |s'.waiters| && s'.owner == Some(s'.waiters[w].root) && s'.counter == 1
                && s.waiters[w].claim == Unclaimed && s'.waiters[w].claim == Notified
                && forall v :: 0 <= v < w ==> s'.waiters[v].claim != Unclaimed)
  {
    ExecKeepsInv(steps);
  }

  /**
   What makes a root the owner: locks it was granted and has not given back, as many as the counter says,
   none of them through a waiter that expired.
   */
  lemma {:induction false} OwnerHoldsItsLocks(steps: seq<Step>, r: Root)
    requires Exec(steps).pc == Free && Exec(steps).owner == Some(r)
    ensures var s := Exec(steps);
            && Held(s.log, s.waiters, r) == s.counter > 0
            && forall w :: 0 <= w < |s.waiters| && s.waiters[w].claim in {TimedOut, Cancelled} ==> HandOff(w) !in s.log
  {
    ExecKeepsInv(steps);
    var s := Exec(steps);
    forall i | 0 <= i < |s.log| && s.log[i].HandOff?
      ensures s.waiters[s.log[i].w].claim == Notified
    {
      assert Supported(s.log[i], s.waiters);
    }
  }
}
