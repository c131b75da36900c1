/**
 What a registration, a stop request and a removal lead to over the runs of the stop protocol: which
 callbacks run, when, in which order, and that nobody waits for ever.
 */
module StopRuns {
  import opened Prelude
  import opened StopProtocol

  // ---- two more invariants ----

  // Above the frame of a registration lies the body of its callback, until that has ended.
  ghost predicate AdderOk(s: Sys, t: nat, i: nat, c: nat)
    requires t < |s.stacks|
  {
    c < |s.callbacks| && (s.callbacks[c].ends == 1 || (i + 1 < |s.stacks[t]| && s.stacks[t][i + 1] == BodyF(c)))
  }

  ghost predicate AddersInv(s: Sys) {
    forall t, i :: 0 <= t < |s.stacks| && 0 <= i < |s.stacks[t]| && s.stacks[t][i].AddF? ==>
      AdderOk(s, t, i, s.stacks[t][i].c)
  }

  ghost predicate QuietInv(s: Sys) {
    !s.stop ==> forall c :: 0 <= c < |s.callbacks| ==> s.callbacks[c].starts == 0
  }

  ghost predicate RunInv(s: Sys) {
    Inv(s) && AddersInv(s) && QuietInv(s)
  }

  lemma NextKeepsAdders(s: Sys, step: Step)
    requires Inv(s) && AddersInv(s)
    ensures AddersInv(Next(s, step))
  {
    if step.EndCallback? {
      EndCallbackKeepsAdders(s, step.t);
    } else if step.RequestStop? || step.StartCallback? || step.Remove? {
      PushKeepsAdders(s, step);
    } else if step.Add? {
      AddKeepsAdders(s, step.t, step.c);
    } else if !step.DropSource? {
      ReturnKeepsAdders(s, step);
    }
  }

  lemma PushKeepsAdders(s: Sys, step: Step)
    requires Inv(s) && AddersInv(s) && (step.RequestStop? || step.StartCallback? || step.Remove?)
    ensures AddersInv(Next(s, step))
  {
  }

  lemma AddKeepsAdders(s: Sys, t: nat, c: nat)
    requires Inv(s) && AddersInv(s)
    ensures AddersInv(Next(s, Add(t, c)))
  {
  }

  // Taking another frame than a body off a stack uncovers no registration.
  lemma PopKeepsAdders(s: Sys, s': Sys, t: nat)
    requires AddersInv(s) && HasTop(s, t) && !Top(s, t).BodyF? && s'.stacks == Pop(s, t).stacks
    requires |s'.callbacks| == |s.callbacks|
    requires forall c :: 0 <= c < |s.callbacks| ==> s'.callbacks[c].ends == s.callbacks[c].ends
    ensures AddersInv(s')
  {
  }

  lemma ReturnKeepsAdders(s: Sys, step: Step)
    requires Inv(s) && AddersInv(s)
    requires step.AfterCallback? || step.PopNext? || step.EndAdd? || step.AwaitRemoval?
    ensures AddersInv(Next(s, step))
  {
    if HasTop(s, step.t) && Next(s, step).stacks == Pop(s, step.t).stacks {
      PopKeepsAdders(s, Next(s, step), step.t);
    } else {
      assert Next(s, step).stacks == s.stacks;
    }
  }

  lemma EndCallbackKeepsAdders(s: Sys, t: nat)
    requires Inv(s) && AddersInv(s)
    ensures AddersInv(Next(s, EndCallback(t)))
  {
  }

  lemma NextKeepsQuiet(s: Sys, step: Step)
    requires Inv(s) && QuietInv(s)
    ensures QuietInv(Next(s, step))
  {
  }

  lemma {:induction false} ExecKeepsRunInv(s: Sys, more: seq<Step>)
    requires RunInv(s)
    ensures RunInv(Exec(s, more))
  {
    if more != [] {
      var n := |more| - 1;
      ExecKeepsRunInv(s, more[..n]);
      NextKeepsInv(Exec(s, more[..n]), more[n]);
      NextKeepsAdders(Exec(s, more[..n]), more[n]);
      NextKeepsQuiet(Exec(s, more[..n]), more[n]);
    }
  }

  lemma ReachableHasRunInv(s: Sys)
    requires Reachable(s)
    ensures RunInv(s)
  {
    var threads: nat, callbacks: nat, sources: nat, steps :| s == Exec(Init(threads, callbacks, sources), steps);
    InitHasInv(threads, callbacks, sources);
    ExecKeepsRunInv(Init(threads, callbacks, sources), steps);
  }

  // ---- what one call does ----

  /**
   A registration: with a stop requested the callback starts at once, on the thread that registers it;
   without, it becomes the first of the list as long as a source is left; else it is turned away.
   */
  lemma RegistrationOutcome(s: Sys, t: nat, c: nat)
    requires Reachable(s) && CanCall(s, t) && c < |s.callbacks| && s.callbacks[c].phase == Fresh
    ensures var s' := Next(s, Add(t, c));
            && s'.callbacks == s.callbacks[c := s'.callbacks[c]]
            && s'.callbacks[c].ends == 0 && s'.stop == s.stop && s'.request == s.request
            && if s.stop then
                 && s'.callbacks[c].starts == 1 && s'.list == s.list
                 && s'.stacks == s.stacks[t := s.stacks[t] + [AddF(c), BodyF(c)]]
               else
                 && s'.callbacks[c].starts == 0 && s'.stacks == s.stacks
                 && s'.callbacks[c].phase == (if s.sources > 0 then Registered else Rejected)
                 && s'.list == (if s.sources > 0 then [c] else []) + s.list
  {
    ReachableHasInv(s);
    assert CallbackOk(s.callbacks[c], c, c in s.list, s.request);
    assert s.stacks[t] + [AddF(c)] + [BodyF(c)] == s.stacks[t] + [AddF(c), BodyF(c)];
  }

  /** A registration that runs its callback itself returns once that has ended; the callback is not linked then. */
  lemma LateRegistrationReturns(s: Sys, t: nat, c: nat)
    requires Reachable(s) && HasTop(s, t) && Top(s, t) == AddF(c)
    ensures c < |s.callbacks| && s.callbacks[c].starts == s.callbacks[c].ends == 1
    ensures var s' := Next(s, EndAdd(t));
            && s'.callbacks[c].phase == Rejected && c !in s'.list
            && s'.stacks[t] == s.stacks[t][..|s.stacks[t]| - 1]
  {
    ReachableHasRunInv(s);
    assert FrameOk(s, t, |s.stacks[t]| - 1, Top(s, t));
    assert AdderOk(s, t, |s.stacks[t]| - 1, c);
    assert CallbackOk(s.callbacks[c], c, c in s.list, s.request);
  }

  /** The first stop request wins, and takes the newest callback in hand if there is any; all others return false. */
  lemma RequestOutcome(s: Sys, t: nat)
    requires Reachable(s) && CanCall(s, t)
    ensures var s' := Next(s, RequestStop(t));
            && s'.stop && s'.callbacks == s.callbacks
            && (s.stop ==>
                 s'.falseReturns == s.falseReturns + 1 && s'.trueReturns == s.trueReturns && s'.list == s.list)
            && (!s.stop ==> s'.falseReturns == s.falseReturns && s'.signalling == Some(t))
            && (!s.stop && s.list == [] ==> s'.trueReturns == 1)
            && (!s.stop && s.list != [] ==> s'.request.Popped? && s.list == [s'.request.c] + s'.list)
  {
    ReachableHasInv(s);
  }

  /** A removal of a callback that is still linked returns at once, and the callback has not been started. */
  lemma RemovalOutcome(s: Sys, t: nat, c: nat)
    requires Reachable(s) && CanCall(s, t) && c < |s.callbacks| && c in s.list
    ensures var s' := Next(s, Remove(t, c));
            && s'.callbacks[c].phase == Gone && s'.callbacks[c].starts == 0 && s'.stacks == s.stacks
            && forall x :: x in s'.list <==> x in s.list && x != c
  {
    ReachableHasInv(s);
    WithoutMembers(s.list, c);
    assert CallbackOk(s.callbacks[c], c, true, s.request);
  }

  /** A removal waits exactly as long as the callback is in the hands of a `request_stop` on another thread. */
  lemma RemovalWaitsOnlyForItsCallback(s: Sys, t: nat, c: nat)
    requires Reachable(s) && HasTop(s, t) && Top(s, t) == RemoveF(c)
    ensures c < |s.callbacks|
    ensures var s' := Next(s, AwaitRemoval(t));
            if AtWork(s.request, c) && s.signalling != Some(t) then s' == s
            else s'.callbacks[c].phase == Gone && s'.stacks[t] == s.stacks[t][..|s.stacks[t]| - 1]
  {
    ReachableHasInv(s);
    assert FrameOk(s, t, |s.stacks[t]| - 1, Top(s, t));
    assert CallbackOk(s.callbacks[c], c, c in s.list, s.request);
  }

  // ---- a callback registered in time ----

  lemma RegisteredStays(s: Sys, step: Step, c: nat)
    requires Inv(s) && c < |s.callbacks| && s.callbacks[c].phase == Registered
    requires !(step.Remove? && step.c == c)
    ensures c < |Next(s, step).callbacks| && Next(s, step).callbacks[c].phase == Registered
  {
    if step.EndAdd? || step.AwaitRemoval? {
      ReturnLeavesRegisteredAlone(s, step, c);
    }
  }

  lemma ReturnLeavesRegisteredAlone(s: Sys, step: Step, c: nat)
    requires Inv(s) && c < |s.callbacks| && s.callbacks[c].phase == Registered
    requires step.EndAdd? || step.AwaitRemoval?
    ensures c < |Next(s, step).callbacks| && Next(s, step).callbacks[c].phase == Registered
  {
  }

  ghost predicate NeverRemoved(more: seq<Step>, c: nat) {
    forall i :: 0 <= i < |more| ==> !(more[i].Remove? && more[i].c == c)
  }

  lemma {:induction false} RegisteredOverRuns(s: Sys, more: seq<Step>, c: nat)
    requires RunInv(s) && c < |s.callbacks| && s.callbacks[c].phase == Registered && NeverRemoved(more, c)
    ensures c < |Exec(s, more).callbacks| && Exec(s, more).callbacks[c].phase == Registered
    ensures RunInv(Exec(s, more))
  {
    ExecKeepsRunInv(s, more);
    if more != [] {
      var n := |more| - 1;
      RegisteredOverRuns(s, more[..n], c);
      RegisteredStays(Exec(s, more[..n]), more[n], c);
    }
  }

  /**
   A callback registered while no stop was requested and a source was left, and never removed: it waits in
   the list until a stop is requested, and has run exactly once, to its end, when that request returns.
   */
  lemma {:induction false} AddedInTimeRunsOnce(s: Sys, t: nat, c: nat, more: seq<Step>)
    requires Reachable(s) && CanCall(s, t) && c < |s.callbacks| && s.callbacks[c].phase == Fresh
    requires !s.stop && s.sources > 0 && NeverRemoved(more, c)
    ensures var e := Exec(Next(s, Add(t, c)), more);
            && c < |e.callbacks|
            && (!e.stop ==> c in e.list && e.callbacks[c].starts == 0)
            && (e.trueReturns == 1 ==> e.callbacks[c].starts == e.callbacks[c].ends == 1)
  {
    ReachableHasRunInv(s);
    NextKeepsInv(s, Add(t, c));
    NextKeepsAdders(s, Add(t, c));
    NextKeepsQuiet(s, Add(t, c));
    RegistrationOutcome(s, t, c);
    RegisteredOverRuns(Next(s, Add(t, c)), more, c);
    RegisteredWaitsOrHasRun(Exec(Next(s, Add(t, c)), more), c);
  }

  lemma RegisteredWaitsOrHasRun(s: Sys, c: nat)
    requires RunInv(s) && c < |s.callbacks| && s.callbacks[c].phase == Registered
    ensures !s.stop ==> c in s.list && s.callbacks[c].starts == 0
    ensures s.trueReturns == 1 ==> s.callbacks[c].starts == s.callbacks[c].ends == 1
  {
    assert CallbackOk(s.callbacks[c], c, c in s.list, s.request);
  }

  // ---- a callback registered too late ----

  lemma {:induction false} LateOverRuns(s: Sys, more: seq<Step>, c: nat)
    requires RunInv(s) && c < |s.callbacks| && LateOk(s.callbacks[c])
    ensures c < |Exec(s, more).callbacks| && LateOk(Exec(s, more).callbacks[c])
  {
    if more != [] {
      var n := |more| - 1;
      ExecKeepsRunInv(s, more[..n]);
      LateOverRuns(s, more[..n], c);
      NextKeepsLate(Exec(s, more[..n]), more[n], c);
    }
  }

  ghost predicate LateOk(x: Callback) {
    x.starts == 1 && (x.phase == Adding || (x.phase == Rejected && x.ends == 1))
  }

  lemma NextKeepsLate(s: Sys, step: Step, c: nat)
    requires Inv(s) && AddersInv(s) && c < |s.callbacks| && LateOk(s.callbacks[c])
    ensures c < |Next(s, step).callbacks| && LateOk(Next(s, step).callbacks[c])
  {
    if step.EndAdd? || step.AwaitRemoval? {
      ReturnKeepsLate(s, step, c);
    }
  }

  lemma ReturnKeepsLate(s: Sys, step: Step, c: nat)
    requires Inv(s) && AddersInv(s) && c < |s.callbacks| && LateOk(s.callbacks[c])
    requires step.EndAdd? || step.AwaitRemoval?
    ensures c < |Next(s, step).callbacks| && LateOk(Next(s, step).callbacks[c])
  {
  }

  /**
   A callback registered after the stop was requested is run by its registration: started by then, and ended
   by the time the registration has returned, whatever else happens.
   */
  lemma {:induction false} AddedLateRunsOnce(s: Sys, t: nat, c: nat, more: seq<Step>)
    requires Reachable(s) && CanCall(s, t) && c < |s.callbacks| && s.callbacks[c].phase == Fresh && s.stop
    ensures var e := Exec(Next(s, Add(t, c)), more);
            && c < |e.callbacks| && e.callbacks[c].starts == 1
            && (e.callbacks[c].phase != Adding ==> e.callbacks[c].ends == 1)
  {
    ReachableHasRunInv(s);
    NextKeepsInv(s, Add(t, c));
    NextKeepsAdders(s, Add(t, c));
    NextKeepsQuiet(s, Add(t, c));
    RegistrationOutcome(s, t, c);
    LateOverRuns(Next(s, Add(t, c)), more, c);
  }

  // ---- the winner returns ----

  // What the thread of the winning `request_stop` does next, if its callbacks do nothing but return.
  function WinnerStep(s: Sys): Step
    requires s.signalling.Some? && HasTop(s, s.signalling.value)
  {
    var t := s.signalling.value;
    match Top(s, t)
    case BodyF(_) => EndCallback(t)
    case AddF(_) => EndAdd(t)
    case RemoveF(_) => AwaitRemoval(t)
    case RequestF =>
      if s.request.Popped? then StartCallback(t)
      else if s.request.Executing? then AfterCallback(t)
      else PopNext(t)
  }

  // How many steps the winner is from returning.
  function Rank(s: Sys): nat
    requires s.signalling.Some? && s.signalling.value < |s.stacks|
  {
    var above := |s.stacks[s.signalling.value]| - 1 - s.requestPos;
    4 * |s.list| + (if s.request.Popped? then 4 else if s.request.Executing? && above >= 0 then 2 + above else 1)
  }

  lemma WinnerMoves(s: Sys)
    requires Inv(s) && InCall(s.request)
    ensures HasTop(s, s.signalling.value)
    ensures var s' := Next(s, WinnerStep(s));
            && s'.signalling == s.signalling && s'.stop
            && (s'.request == Done || (InCall(s'.request) && |s'.stacks| == |s.stacks| && Rank(s') < Rank(s)))
  {
    var t := s.signalling.value;
    assert FrameOk(s, t, |s.stacks[t]| - 1, Top(s, t));
  }

  predicate OwnStep(step: Step, t: nat) {
    step in {StartCallback(t), AfterCallback(t), PopNext(t), EndCallback(t), EndAdd(t), AwaitRemoval(t)}
  }

  // `more` are steps of thread `t` alone after which its `request_stop` has returned.
  ghost predicate Returns(s: Sys, t: nat, more: seq<Step>) {
    (forall i :: 0 <= i < |more| ==> OwnStep(more[i], t)) && Exec(s, more).trueReturns == 1
  }

  lemma {:induction false} ExecFirst(s: Sys, step: Step, more: seq<Step>)
    ensures Exec(s, [step] + more) == Exec(Next(s, step), more)
  {
    if more == [] {
      ExecLast(s, [], step);
      assert [] + [step] == [step] + more;
    } else {
      var rest, last := more[..|more| - 1], more[|more| - 1];
      ExecFirst(s, step, rest);
      ExecLast(s, [step] + rest, last);
      ExecLast(Next(s, step), rest, last);
      assert more == rest + [last];
      assert [step] + more == [step] + rest + [last];
    }
  }

  lemma ExecLast(s: Sys, steps: seq<Step>, step: Step)
    ensures Exec(s, steps + [step]) == Next(Exec(s, steps), step)
  {
    assert (steps + [step])[..|steps|] == steps;
  }

  lemma {:induction false} WinnerReturnsWithin(s: Sys)
    requires Inv(s) && InCall(s.request)
    ensures exists more :: |more| <= Rank(s) && Returns(s, s.signalling.value, more)
    decreases Rank(s)
  {
    var t, step := s.signalling.value, WinnerStep(s);
    var s' := Next(s, step);
    WinnerMoves(s);
    NextKeepsInv(s, step);
    if s'.request == Done {
      ReturnsOneEarlier(s, t, step, []);
    } else {
      WinnerReturnsWithin(s');
      var more :| |more| <= Rank(s') && Returns(s', t, more);
      ReturnsOneEarlier(s, t, step, more);
    }
  }

  lemma ReturnsOneEarlier(s: Sys, t: nat, step: Step, more: seq<Step>)
    requires OwnStep(step, t)
    requires Returns(Next(s, step), t, more)
    ensures Returns(s, t, [step] + more)
  {
    ExecFirst(s, step, more);
  }

  /**
   The winning `request_stop` never waits for anybody: from every reachable state the steps of its own thread
   alone let it return, if its callbacks do. So no removal inside a callback blocks the thread that runs it.
   */
  lemma {:induction false} WinnerReturns(s: Sys)
    requires Reachable(s) && InCall(s.request)
    ensures s.signalling.Some? && s.signalling.value < |s.stacks|
    ensures exists more :: |more| <= Rank(s) && Returns(s, s.signalling.value, more)
  {
    ReachableHasInv(s);
    WinnerReturnsWithin(s);
  }

  // ---- the order of the callbacks ----

  predicate Ahead(list: seq<nat>, c: nat, d: nat) {
    list != [] && if list[0] == c then d in list[1..] else Ahead(list[1..], c, d)
  }

  lemma {:induction false} WithoutKeepsAhead(list: seq<nat>, c: nat, d: nat, x: nat)
    requires NoDuplicates(list) && Ahead(list, c, d) && x != c && x != d
    ensures Ahead(Without(list, x), c, d)
  {
    WithoutMembers(list[1..], x);
    if list[0] != c {
      WithoutKeepsAhead(list[1..], c, d, x);
    }
  }

  // The callback `d` comes after `c`: it waits behind it, or `c` has its turn, or has had it.
  ghost predicate InOrder(s: Sys, c: nat, d: nat)
    requires c < |s.callbacks|
  {
    || Ahead(s.list, c, d)
    || (s.request.Popped? && s.request.c == c && d in s.list)
    || s.callbacks[c].starts == 1
  }

  lemma NextKeepsOrder(s: Sys, step: Step, c: nat, d: nat)
    requires Inv(s) && c < |s.callbacks| && s.callbacks[c].phase == Registered && c != d && InOrder(s, c, d)
    requires !(step.Remove? && step.c in {c, d})
    ensures c < |Next(s, step).callbacks| && InOrder(Next(s, step), c, d)
  {
    if step.Remove? {
      RemoveKeepsOrder(s, step.t, step.c, c, d);
    }
  }

  lemma RemoveKeepsOrder(s: Sys, t: nat, x: nat, c: nat, d: nat)
    requires Inv(s) && c < |s.callbacks| && s.callbacks[c].phase == Registered && c != d && InOrder(s, c, d)
    requires x != c && x != d
    ensures c < |Next(s, Remove(t, x)).callbacks| && InOrder(Next(s, Remove(t, x)), c, d)
  {
    if x in s.list {
      WithoutMembers(s.list, x);
      if Ahead(s.list, c, d) {
        WithoutKeepsAhead(s.list, c, d, x);
      }
    }
  }

  lemma {:induction false} OrderOverRuns(s: Sys, more: seq<Step>, c: nat, d: nat)
    requires RunInv(s) && c < |s.callbacks| && s.callbacks[c].phase == Registered && c != d && InOrder(s, c, d)
    requires NeverRemoved(more, c) && NeverRemoved(more, d)
    ensures c < |Exec(s, more).callbacks| && InOrder(Exec(s, more), c, d)
  {
    if more != [] {
      var n := |more| - 1;
      RegisteredOverRuns(s, more[..n], c);
      OrderOverRuns(s, more[..n], c, d);
      NextKeepsOrder(Exec(s, more[..n]), more[n], c, d);
    }
  }

  /** The newest callback runs first: of two linked callbacks the one behind is not started before the other. */
  lemma {:induction false} NewestFirst(s: Sys, more: seq<Step>, c: nat, d: nat)
    requires Reachable(s) && c < |s.callbacks| && d < |s.callbacks| && c != d && Ahead(s.list, c, d)
    requires NeverRemoved(more, c) && NeverRemoved(more, d)
    ensures c < |Exec(s, more).callbacks| && d < |Exec(s, more).callbacks|
    ensures Exec(s, more).callbacks[d].starts == 1 ==> Exec(s, more).callbacks[c].starts == 1
  {
    ReachableHasRunInv(s);
    AheadIsListed(s.list, c, d);
    OrderOverRuns(s, more, c, d);
    RegisteredOverRuns(s, more, d);
    BehindIsNotStarted(Exec(s, more), c, d);
  }

  lemma {:induction false} AheadIsListed(list: seq<nat>, c: nat, d: nat)
    requires Ahead(list, c, d)
    ensures c in list && d in list
  {
    if list[0] != c {
      AheadIsListed(list[1..], c, d);
    }
  }

  lemma BehindIsNotStarted(s: Sys, c: nat, d: nat)
    requires Inv(s) && c < |s.callbacks| && d < |s.callbacks| && s.callbacks[d].phase == Registered
    requires InOrder(s, c, d)
    ensures s.callbacks[d].starts == 1 ==> s.callbacks[c].starts == 1
  {
    assert CallbackOk(s.callbacks[d], d, d in s.list, s.request);
    if Ahead(s.list, c, d) {
      AheadIsListed(s.list, c, d);
    }
  }

  // ---- the sources ----

  function Drops(steps: seq<Step>): nat {
    if steps == [] then 0 else Drops(steps[..|steps| - 1]) + if steps[|steps| - 1].DropSource? then 1 else 0
  }

  /** Registrations are turned away, unless a stop was requested, once all sources have been dropped. */
  lemma {:induction false} SourcesLeft(threads: nat, callbacks: nat, sources: nat, steps: seq<Step>)
    ensures Exec(Init(threads, callbacks, sources), steps).sources
         == if Drops(steps) < sources then sources - Drops(steps) else 0
  {
    if steps != [] {
      SourcesLeft(threads, callbacks, sources, steps[..|steps| - 1]);
      OnlyDropsChangeSources(Exec(Init(threads, callbacks, sources), steps[..|steps| - 1]), steps[|steps| - 1]);
    }
  }

  lemma OnlyDropsChangeSources(s: Sys, step: Step)
    ensures Next(s, step).sources == if step.DropSource? && s.sources > 0 then s.sources - 1 else s.sources
  {
  }
}
