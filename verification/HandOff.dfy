/**
 Handing something to the first of a queue of waits while timers and cancellers claim waits without any lock,
 on values. What they do is an argument: `env(t, j)` is what befalls the wait at position j of the queue
 during turn t of the loop, which is the turn of the wait at position t.
 */
module HandOff {
  datatype Claim = Unclaimed | Notified | TimedOut | Cancelled

  // What there is to see of a wait; `granted` is what its awaiter reports, `enqueued` how often it was to resume.
  datatype View = View(root: nat, claim: Claim, granted: bool, hasHandler: bool, enqueued: nat)

  datatype Deed = Leave | TimeOut | Cancel

  type Interference = (nat, nat) -> Deed

  // Whoever claims a wait first decides; a deed on a claimed wait does nothing.
  function Suffer(v: View, d: Deed): View {
    if v.claim != Unclaimed || d == Leave then v
    else if d == TimeOut then
      v.(claim := TimedOut, granted := false, enqueued := v.enqueued + if v.hasHandler then 1 else 0)
    else v.(claim := Cancelled, granted := false, hasHandler := false)
  }

  function Told(v: View): View {
    v.(claim := Notified, granted := true, enqueued := v.enqueued + if v.hasHandler then 1 else 0)
  }

  // The wait at position `j` after `n` turns.
  function Suffered(v: View, env: Interference, j: nat, n: nat): View {
    if n == 0 then v else Suffer(Suffered(v, env, j, n - 1), env(n - 1, j))
  }

  ghost predicate Spared(env: Interference, j: nat, n: nat) {
    forall t: nat :: t < n ==> env(t, j) == Leave
  }

  // Nobody has claimed the wait at position `j` when the loop comes to notify it.
  ghost predicate LiveAt(v: View, env: Interference, j: nat) {
    v.claim == Unclaimed && Spared(env, j, j + 1)
  }

  ghost predicate Live(before: seq<View>, env: Interference, j: nat)
    requires j < |before|
  {
    LiveAt(before[j], env, j)
  }

  lemma {:induction false} SufferedIsUnclaimedIff(v: View, env: Interference, j: nat, n: nat)
    ensures Suffered(v, env, j, n).claim == Unclaimed <==> v.claim == Unclaimed && Spared(env, j, n)
    ensures v.claim != Unclaimed || Spared(env, j, n) ==> Suffered(v, env, j, n) == v
    ensures Suffered(v, env, j, n).claim in {v.claim, TimedOut, Cancelled}
  {
    if n > 0 {
      SufferedIsUnclaimedIff(v, env, j, n - 1);
    }
  }

  // How the waits look after turn `i`.
  function Turned(now: seq<View>, env: Interference, i: nat): (turned: seq<View>)
    requires i < |now|
    ensures |turned| == |now|
  {
    seq(|now|, j requires 0 <= j < |now| =>
      if j < i then now[j]
      else if j == i && Taken(now[i], env, i) then Told(now[i])
      else Suffer(now[j], env(i, j)))
  }

  // Turn `i` notifies its wait.
  predicate Taken(v: View, env: Interference, i: nat) {
    v.claim == Unclaimed && env(i, i) == Leave
  }

  // The position of the first live wait, or the length of the queue.
  ghost function FirstLive(before: seq<View>, env: Interference, from: nat): (k: nat)
    requires from <= |before|
    ensures from <= k <= |before|
    ensures forall j :: from <= j < k ==> !Live(before, env, j)
    ensures k < |before| ==> Live(before, env, k)
    decreases |before| - from
  {
    if from == |before| || Live(before, env, from) then from else FirstLive(before, env, from + 1)
  }

  /**
   What a queue of waits looks like after its first live wait `k` was notified: it, and it alone, by the
   notifier; the waits before it claimed by others; the waits behind it as timers and cancellers left them.
   */
  ghost predicate HandedToFirst(before: seq<View>, after: seq<View>, env: Interference, k: nat) {
    && |after| == |before| && k <= |before|
    && (forall j :: 0 <= j < k ==> !Live(before, env, j) && after[j] == Suffered(before[j], env, j, j + 1))
    && (k < |before| ==> Live(before, env, k) && after[k] == Told(before[k]))
    && forall j :: k < j < |before| ==> after[j] == Suffered(before[j], env, j, k + 1)
  }

  /** After a broadcast: exactly the live waits have been notified. */
  ghost predicate HandedToAll(before: seq<View>, after: seq<View>, env: Interference) {
    && |after| == |before|
    && forall j :: 0 <= j < |before| ==>
         after[j] == if Live(before, env, j) then Told(before[j]) else Suffered(before[j], env, j, j + 1)
  }

  /** There is only one place where a hand-off can end, and only one way the waits can look then. */
  lemma HandedToFirstIsUnique(before: seq<View>, after: seq<View>, env: Interference, k: nat)
    requires HandedToFirst(before, after, env, k)
    ensures k == FirstLive(before, env, 0)
  {
  }

  /** Left alone, the first unclaimed wait of the queue gets it, and no other wait changes. */
  lemma {:induction false} UndisturbedHandOff(before: seq<View>, after: seq<View>, env: Interference, k: nat)
    requires HandedToFirst(before, after, env, k) && forall t: nat, j: nat :: env(t, j) == Leave
    ensures forall j :: 0 <= j < |before| && j != k ==> after[j] == before[j]
    ensures forall j :: 0 <= j < k ==> before[j].claim != Unclaimed
    ensures k < |before| ==> before[k].claim == Unclaimed && after[k] == Told(before[k])
    ensures k == |before| ==> forall j :: 0 <= j < |before| ==> before[j].claim != Unclaimed
  {
    forall j | 0 <= j < |before| ensures j != k ==> after[j] == before[j] {
      SufferedIsUnclaimedIff(before[j], env, j, j + 1);
      SufferedIsUnclaimedIff(before[j], env, j, k + 1);
    }
    forall j | 0 <= j < k ensures before[j].claim != Unclaimed {
      assert !Live(before, env, j);
    }
  }

  /** Whoever was unclaimed and is not notified was claimed by a timer or a canceller at a turn up to its own. */
  lemma PassedOverWasClaimed(before: seq<View>, after: seq<View>, env: Interference, k: nat, j: nat)
    requires HandedToFirst(before, after, env, k) && j < k
    requires before[j].claim == Unclaimed
    ensures after[j].claim in {TimedOut, Cancelled}
    ensures exists t: nat :: t <= j && env(t, j) != Leave
  {
    SufferedIsUnclaimedIff(before[j], env, j, j + 1);
    assert !Live(before, env, j);
  }

  // ---- the loop ----

  // `i` turns have passed without a notification.
  ghost predicate InProgress(before: seq<View>, now: seq<View>, env: Interference, i: nat) {
    && |now| == |before| && i <= |before|
    && (forall j :: 0 <= j < i ==> !Live(before, env, j) && now[j] == Suffered(before[j], env, j, j + 1))
    && forall j :: i <= j < |before| ==> now[j] == Suffered(before[j], env, j, i)
  }

  lemma TurnGoesOn(before: seq<View>, now: seq<View>, env: Interference, i: nat)
    requires InProgress(before, now, env, i) && i < |before|
    ensures if Taken(now[i], env, i) then HandedToFirst(before, Turned(now, env, i), env, i)
            else InProgress(before, Turned(now, env, i), env, i + 1)
  {
    SufferedIsUnclaimedIff(before[i], env, i, i);
    SufferedIsUnclaimedIff(before[i], env, i, i + 1);
  }

  // `i` turns of a broadcast have passed.
  ghost predicate InBroadcast(before: seq<View>, now: seq<View>, env: Interference, i: nat) {
    && |now| == |before| && i <= |before|
    && (forall j :: 0 <= j < i ==>
         now[j] == if Live(before, env, j) then Told(before[j]) else Suffered(before[j], env, j, j + 1))
    && forall j :: i <= j < |before| ==> now[j] == Suffered(before[j], env, j, i)
  }

  lemma BroadcastGoesOn(before: seq<View>, now: seq<View>, env: Interference, i: nat)
    requires InBroadcast(before, now, env, i) && i < |before|
    ensures InBroadcast(before, Turned(now, env, i), env, i + 1)
  {
    SufferedIsUnclaimedIff(before[i], env, i, i);
    SufferedIsUnclaimedIff(before[i], env, i, i + 1);
  }
}
