/**
 Stop requests, callback registration and callback removal by any number of threads. Every section under
 the word's lock is one step; callbacks run outside the lock, and a running callback may itself request a
 stop, register and remove callbacks on its thread. Threads are stacks of calls.
 */
module StopProtocol {
  import opened Prelude

  // The life of a callback object. `Adding`: its constructor is executing it. `Gone`: its removal has returned.
  datatype Phase = Fresh | Adding | Rejected | Registered | Removing | Gone

  // `marked` is whether `is_removed` points at a local of the running `request_stop`.
  datatype Callback = Callback(phase: Phase, marked: bool, finished: bool, starts: nat, ends: nat)

  datatype Frame =
    | RequestF        // the `request_stop` that won
    | AddF(c: nat)    // a `try_add_callback` executing its callback
    | RemoveF(c: nat) // a `remove_callback` past its locked section
    | BodyF(c: nat)   // a callback's own code

  // Where the winning `request_stop` stands, outside the lock.
  datatype Request =
    | Idle
    | Popped(c: nat, more: bool)
    | Executing(c: nat, more: bool, removed: bool)
    | Relocking
    | Done

  datatype Sys = Sys(
    stop: bool,
    sources: nat,
    list: seq<nat>,
    signalling: Option<nat>,
    request: Request,
    requestPos: nat,        // the depth of the winner's frame on its stack
    callbacks: seq<Callback>,
    stacks: seq<seq<Frame>>,
    trueReturns: nat,
    falseReturns: nat)

  datatype Step =
    | RequestStop(t: nat)
    | StartCallback(t: nat)
    | EndCallback(t: nat)
    | AfterCallback(t: nat)
    | PopNext(t: nat)
    | Add(t: nat, c: nat)
    | EndAdd(t: nat)
    | Remove(t: nat, c: nat)
    | AwaitRemoval(t: nat)
    | DropSource

  function Init(threads: nat, callbacks: nat, sources: nat): Sys {
    Sys(false, sources, [], None, Idle, 0,
        seq(callbacks, _ => Callback(Fresh, false, false, 0, 0)), seq(threads, _ => []), 0, 0)
  }

  predicate HasTop(s: Sys, t: nat) {
    t < |s.stacks| && s.stacks[t] != []
  }

  function Top(s: Sys, t: nat): Frame
    requires HasTop(s, t)
  {
    s.stacks[t][|s.stacks[t]| - 1]
  }

  // User code runs at the bottom of a thread and inside callbacks; only there do new calls begin.
  predicate CanCall(s: Sys, t: nat) {
    t < |s.stacks| && (s.stacks[t] == [] || Top(s, t).BodyF?)
  }

  function Push(s: Sys, t: nat, f: Frame): Sys
    requires t < |s.stacks|
  {
    s.(stacks := s.stacks[t := s.stacks[t] + [f]])
  }

  function Pop(s: Sys, t: nat): Sys
    requires HasTop(s, t)
  {
    s.(stacks := s.stacks[t := s.stacks[t][..|s.stacks[t]| - 1]])
  }

  function Set(s: Sys, c: nat, x: Callback): Sys
    requires c < |s.callbacks|
  {
    s.(callbacks := s.callbacks[c := x])
  }

  function DoRequestStop(s: Sys, t: nat): Sys
    requires t < |s.stacks|
  {
    if s.stop then s.(falseReturns := s.falseReturns + 1)
    else
      var s' := s.(stop := true, signalling := Some(t));
      if s.list == [] then s'.(request := Done, trueReturns := s.trueReturns + 1)
      else
        var popped := Popped(s.list[0], s.list[1..] != []);
        Push(s'.(list := s.list[1..], request := popped, requestPos := |s.stacks[t]|), t, RequestF)
  }

  function DoStartCallback(s: Sys, t: nat): Sys
    requires t < |s.stacks| && s.request.Popped?
  {
    var c := s.request.c;
    if c < |s.callbacks| then
      var x := s.callbacks[c];
      var s' := Set(s, c, x.(marked := true, starts := x.starts + 1));
      Push(s'.(request := Executing(c, s.request.more, false)), t, BodyF(c))
    else s
  }

  function DoAfterCallback(s: Sys, t: nat): Sys
    requires HasTop(s, t) && s.request.Executing?
  {
    var c := s.request.c;
    var s' := if s.request.removed || c >= |s.callbacks| then s
              else Set(s, c, s.callbacks[c].(marked := false, finished := true));
    if s.request.more then s'.(request := Relocking)
    else Pop(s', t).(request := Done, trueReturns := s.trueReturns + 1)
  }

  function DoPopNext(s: Sys, t: nat): Sys
    requires HasTop(s, t)
  {
    if s.list == [] then Pop(s, t).(request := Done, trueReturns := s.trueReturns + 1)
    else s.(list := s.list[1..], request := Popped(s.list[0], s.list[1..] != []))
  }

  function DoAdd(s: Sys, t: nat, c: nat): Sys
    requires t < |s.stacks| && c < |s.callbacks|
  {
    var x := s.callbacks[c];
    if s.stop then Push(Push(Set(s, c, x.(phase := Adding, starts := x.starts + 1)), t, AddF(c)), t, BodyF(c))
    else if s.sources == 0 then Set(s, c, x.(phase := Rejected))
    else Set(s, c, x.(phase := Registered)).(list := [c] + s.list)
  }

  function DoRemove(s: Sys, t: nat, c: nat): Sys
    requires t < |s.stacks| && c < |s.callbacks|
  {
    var x := s.callbacks[c];
    if c in s.list then Set(s, c, x.(phase := Gone)).(list := Without(s.list, c))
    else Push(Set(s, c, x.(phase := Removing)), t, RemoveF(c))
  }

  function DoAwaitRemoval(s: Sys, t: nat, c: nat): Sys
    requires HasTop(s, t) && c < |s.callbacks|
  {
    var x := s.callbacks[c];
    if s.signalling == Some(t) then
      var s' := Pop(Set(s, c, x.(phase := Gone)), t);
      if x.marked && s.request.Executing? then s'.(request := s.request.(removed := true)) else s'
    else if x.finished then Pop(Set(s, c, x.(phase := Gone)), t)
    else s
  }

  // A step that cannot be taken leaves the state as it is.
  function Next(s: Sys, step: Step): Sys {
    match step
    case RequestStop(t) => if CanCall(s, t) then DoRequestStop(s, t) else s
    case StartCallback(t) =>
      if HasTop(s, t) && Top(s, t) == RequestF && s.request.Popped? then DoStartCallback(s, t) else s
    case EndCallback(t) =>
      if HasTop(s, t) && Top(s, t).BodyF? && Top(s, t).c < |s.callbacks| then
        var c := Top(s, t).c;
        Pop(Set(s, c, s.callbacks[c].(ends := s.callbacks[c].ends + 1)), t)
      else s
    case AfterCallback(t) =>
      if HasTop(s, t) && Top(s, t) == RequestF && s.request.Executing? then DoAfterCallback(s, t) else s
    case PopNext(t) =>
      if HasTop(s, t) && Top(s, t) == RequestF && s.request.Relocking? then DoPopNext(s, t) else s
    case Add(t, c) =>
      if CanCall(s, t) && c < |s.callbacks| && s.callbacks[c].phase == Fresh then DoAdd(s, t, c) else s
    case EndAdd(t) =>
      if HasTop(s, t) && Top(s, t).AddF? && Top(s, t).c < |s.callbacks| then
        var c := Top(s, t).c;
        Pop(Set(s, c, s.callbacks[c].(phase := Rejected)), t)
      else s
    case Remove(t, c) =>
      if CanCall(s, t) && c < |s.callbacks| && s.callbacks[c].phase == Registered then DoRemove(s, t, c) else s
    case AwaitRemoval(t) =>
      if HasTop(s, t) && Top(s, t).RemoveF? && Top(s, t).c < |s.callbacks| then DoAwaitRemoval(s, t, Top(s, t).c) else s
    case DropSource => if s.sources > 0 then s.(sources := s.sources - 1) else s
  }

  function Exec(s0: Sys, steps: seq<Step>): Sys {
    if steps == [] then s0 else Next(Exec(s0, steps[..|steps| - 1]), steps[|steps| - 1])
  }

  // ---- the invariant ----

  predicate InCall(r: Request) {
    r.Popped? || r.Executing? || r.Relocking?
  }

  predicate AtWork(r: Request, c: nat) {
    (r.Popped? || r.Executing?) && r.c == c
  }

  ghost predicate RequestInv(s: Sys) {
    && (s.stop <==> s.request != Idle)
    && (s.stop <==> s.signalling.Some?)
    && (s.signalling.Some? ==> s.signalling.value < |s.stacks|)
    && s.trueReturns == (if s.request == Done then 1 else 0)
    && (s.falseReturns > 0 ==> s.stop)
    && (s.request == Done ==> s.list == [])
    && ((s.request.Popped? || s.request.Executing?) && !s.request.more ==> s.list == [])
  }

  // The stack of the winner while it is inside `request_stop`.
  ghost predicate WinnerInv(s: Sys)
    requires RequestInv(s)
  {
    InCall(s.request) ==>
      var stack := s.stacks[s.signalling.value];
      && s.requestPos < |stack| && stack[s.requestPos] == RequestF
      && (s.request.Executing? && s.requestPos + 1 < |stack| ==> stack[s.requestPos + 1] == BodyF(s.request.c))
      && (!s.request.Executing? ==> s.requestPos + 1 == |stack|)
      && (!s.request.Relocking? ==> s.request.c < |s.callbacks|)
      && (s.request.Executing? ==> s.callbacks[s.request.c].ends == if s.requestPos + 1 < |stack| then 0 else 1)
  }

  ghost predicate ListInv(s: Sys) {
    && NoDuplicates(s.list)
    && forall c :: c in s.list ==> c < |s.callbacks| && s.callbacks[c].phase == Registered
  }

  // Each callback in its phase.
  ghost predicate CallbackOk(x: Callback, c: nat, listed: bool, r: Request) {
    && x.ends <= x.starts <= 1
    && (x.finished ==> x.ends == 1 && !x.marked)
    && (AtWork(r, c) ==> x.phase in {Registered, Removing, Gone} && !listed)
    && match x.phase
       case Fresh => x == Callback(Fresh, false, false, 0, 0)
       case Adding => x.starts == 1 && !x.marked && !x.finished
       case Rejected => !x.marked && !x.finished
       case Registered => PendingOk(x, c, listed, r)
       case Removing => !listed && PendingOk(x, c, listed, r)
       case Gone => !listed && (AtWork(r, c) ==> r.Executing? && r.removed)
  }

  // A callback that has not been removed: listed, about to run, running or finished.
  ghost predicate PendingOk(x: Callback, c: nat, listed: bool, r: Request) {
    if listed || (r.Popped? && r.c == c) then x.starts == 0 && !x.marked && !x.finished
    else if r.Executing? && r.c == c then x.starts == 1 && x.marked && !x.finished && !r.removed
    else x.starts == 1 && x.finished
  }

  ghost predicate CallbacksInv(s: Sys) {
    forall c :: 0 <= c < |s.callbacks| ==> CallbackOk(s.callbacks[c], c, c in s.list, s.request)
  }

  ghost predicate FrameOk(s: Sys, t: nat, i: nat, f: Frame) {
    match f
    case RequestF => InCall(s.request) && s.signalling == Some(t) && i == s.requestPos
    case AddF(c) => c < |s.callbacks| && s.callbacks[c].phase == Adding
    case RemoveF(c) => c < |s.callbacks| && s.callbacks[c].phase == Removing
    case BodyF(c) => c < |s.callbacks| && s.callbacks[c].starts == 1 && s.callbacks[c].ends == 0
  }

  ghost predicate FramesInv(s: Sys) {
    forall t, i :: 0 <= t < |s.stacks| && 0 <= i < |s.stacks[t]| ==> FrameOk(s, t, i, s.stacks[t][i])
  }

  // No frame occurs twice, on one stack or on two.
  ghost predicate Distinct(stacks: seq<seq<Frame>>) {
    forall t, i, u, j | 0 <= t < |stacks| && 0 <= i < |stacks[t]| && 0 <= u < |stacks| && 0 <= j < |stacks[u]| ::
      stacks[t][i] == stacks[u][j] ==> t == u && i == j
  }

  ghost predicate Inv(s: Sys) {
    RequestInv(s) && WinnerInv(s) && ListInv(s) && CallbacksInv(s) && FramesInv(s) && Distinct(s.stacks)
  }

  // ---- stacks ----

  ghost predicate Absent(stacks: seq<seq<Frame>>, f: Frame) {
    forall t, i :: 0 <= t < |stacks| && 0 <= i < |stacks[t]| ==> stacks[t][i] != f
  }

  lemma PushKeepsDistinct(stacks: seq<seq<Frame>>, t: nat, f: Frame)
    requires t < |stacks| && Distinct(stacks) && Absent(stacks, f)
    ensures Distinct(stacks[t := stacks[t] + [f]])
  {
  }

  lemma PopKeepsDistinct(stacks: seq<seq<Frame>>, t: nat)
    requires t < |stacks| && stacks[t] != [] && Distinct(stacks)
    ensures var after := stacks[t := stacks[t][..|stacks[t]| - 1]];
            Distinct(after) && Absent(after, stacks[t][|stacks[t]| - 1])
  {
  }

  lemma HeadAndTail(list: seq<nat>)
    requires list != [] && NoDuplicates(list)
    ensures list[0] in list && NoDuplicates(list[1..])
    ensures forall x :: x in list[1..] <==> x in list && x != list[0]
  {
  }

  lemma {:induction false} WithoutMembers(list: seq<nat>, c: nat)
    requires NoDuplicates(list)
    ensures NoDuplicates(Without(list, c))
    ensures forall x :: x in Without(list, c) <==> x in list && x != c
  {
    if list != [] {
      HeadAndTail(list);
      if list[0] != c {
        var rest := Without(list[1..], c);
        WithoutMembers(list[1..], c);
        assert forall i :: 0 <= i < |rest| ==> rest[i] in rest;
      }
    }
  }

  // ---- preservation, step by step: first the word, the list and the callbacks, then the stacks ----

  ghost predicate DataInv(s: Sys) {
    RequestInv(s) && ListInv(s) && CallbacksInv(s)
  }

  lemma RequestStopKeepsData(s: Sys, t: nat)
    requires Inv(s)
    ensures DataInv(Next(s, RequestStop(t)))
  {
    if CanCall(s, t) && !s.stop && s.list != [] {
      HeadAndTail(s.list);
    }
  }

  lemma RequestStopKeepsFrames(s: Sys, t: nat)
    requires Inv(s)
    ensures FramesInv(Next(s, RequestStop(t))) && Distinct(Next(s, RequestStop(t)).stacks)
  {
    if CanCall(s, t) && !s.stop && s.list != [] {
      assert Absent(s.stacks, RequestF);
      PushKeepsDistinct(s.stacks, t, RequestF);
    }
  }

  lemma RequestStopKeepsWinner(s: Sys, t: nat)
    requires Inv(s) && DataInv(Next(s, RequestStop(t)))
    ensures WinnerInv(Next(s, RequestStop(t)))
  {
    assert s.list != [] ==> s.list[0] in s.list;
  }

  lemma StartCallbackKeepsData(s: Sys, t: nat)
    requires Inv(s)
    ensures DataInv(Next(s, StartCallback(t)))
  {
  }

  lemma StartCallbackKeepsFrames(s: Sys, t: nat)
    requires Inv(s)
    ensures FramesInv(Next(s, StartCallback(t))) && Distinct(Next(s, StartCallback(t)).stacks)
  {
  }

  lemma StartCallbackKeepsWinner(s: Sys, t: nat)
    requires Inv(s) && DataInv(Next(s, StartCallback(t)))
    ensures WinnerInv(Next(s, StartCallback(t)))
  {
  }

  lemma EndCallbackKeepsData(s: Sys, t: nat)
    requires Inv(s)
    ensures DataInv(Next(s, EndCallback(t)))
  {
  }

  lemma EndCallbackKeepsFrames(s: Sys, t: nat)
    requires Inv(s)
    ensures FramesInv(Next(s, EndCallback(t))) && Distinct(Next(s, EndCallback(t)).stacks)
  {
  }

  lemma EndCallbackKeepsWinner(s: Sys, t: nat)
    requires Inv(s) && DataInv(Next(s, EndCallback(t)))
    ensures WinnerInv(Next(s, EndCallback(t)))
  {
  }

  lemma AfterCallbackKeepsData(s: Sys, t: nat)
    requires Inv(s)
    ensures DataInv(Next(s, AfterCallback(t)))
  {
  }

  lemma AfterCallbackKeepsFrames(s: Sys, t: nat)
    requires Inv(s)
    ensures FramesInv(Next(s, AfterCallback(t))) && Distinct(Next(s, AfterCallback(t)).stacks)
  {
    if HasTop(s, t) && Top(s, t) == RequestF && s.request.Executing? {
      PopKeepsDistinct(s.stacks, t);
    }
  }

  lemma AfterCallbackKeepsWinner(s: Sys, t: nat)
    requires Inv(s) && DataInv(Next(s, AfterCallback(t)))
    ensures WinnerInv(Next(s, AfterCallback(t)))
  {
  }

  lemma PopNextKeepsData(s: Sys, t: nat)
    requires Inv(s)
    ensures DataInv(Next(s, PopNext(t)))
  {
    if s.list != [] {
      HeadAndTail(s.list);
    }
  }

  lemma PopNextKeepsFrames(s: Sys, t: nat)
    requires Inv(s)
    ensures FramesInv(Next(s, PopNext(t))) && Distinct(Next(s, PopNext(t)).stacks)
  {
    if HasTop(s, t) && Top(s, t) == RequestF && s.request.Relocking? {
      PopKeepsDistinct(s.stacks, t);
    }
  }

  lemma PopNextKeepsWinner(s: Sys, t: nat)
    requires Inv(s) && DataInv(Next(s, PopNext(t)))
    ensures WinnerInv(Next(s, PopNext(t)))
  {
    assert s.list != [] ==> s.list[0] in s.list;
  }

  lemma AddKeepsData(s: Sys, t: nat, c: nat)
    requires Inv(s)
    ensures DataInv(Next(s, Add(t, c)))
  {
  }

  lemma AddKeepsDistinct(s: Sys, t: nat, c: nat)
    requires Inv(s)
    ensures Distinct(Next(s, Add(t, c)).stacks)
  {
    if CanCall(s, t) && c < |s.callbacks| && s.callbacks[c].phase == Fresh && s.stop {
      assert CallbackOk(s.callbacks[c], c, c in s.list, s.request);
      assert Absent(s.stacks, AddF(c)) && Absent(s.stacks, BodyF(c));
      PushKeepsDistinct(s.stacks, t, AddF(c));
      var stacks := s.stacks[t := s.stacks[t] + [AddF(c)]];
      assert Absent(stacks, BodyF(c));
      PushKeepsDistinct(stacks, t, BodyF(c));
    }
  }

  lemma AddKeepsFrames(s: Sys, t: nat, c: nat)
    requires Inv(s)
    ensures FramesInv(Next(s, Add(t, c)))
  {
  }

  lemma AddKeepsWinner(s: Sys, t: nat, c: nat)
    requires Inv(s) && DataInv(Next(s, Add(t, c)))
    ensures WinnerInv(Next(s, Add(t, c)))
  {
  }

  lemma EndAddKeepsData(s: Sys, t: nat)
    requires Inv(s)
    ensures DataInv(Next(s, EndAdd(t)))
  {
  }

  lemma EndAddKeepsFrames(s: Sys, t: nat)
    requires Inv(s)
    ensures FramesInv(Next(s, EndAdd(t))) && Distinct(Next(s, EndAdd(t)).stacks)
  {
    if HasTop(s, t) && Top(s, t).AddF? {
      PopKeepsDistinct(s.stacks, t);
    }
  }

  lemma EndAddKeepsWinner(s: Sys, t: nat)
    requires Inv(s) && DataInv(Next(s, EndAdd(t)))
    ensures WinnerInv(Next(s, EndAdd(t)))
  {
  }

  lemma RemoveKeepsData(s: Sys, t: nat, c: nat)
    requires Inv(s)
    ensures DataInv(Next(s, Remove(t, c)))
  {
    if c in s.list {
      WithoutMembers(s.list, c);
    }
  }

  lemma RemoveKeepsFrames(s: Sys, t: nat, c: nat)
    requires Inv(s)
    ensures FramesInv(Next(s, Remove(t, c))) && Distinct(Next(s, Remove(t, c)).stacks)
  {
    if CanCall(s, t) && c < |s.callbacks| && s.callbacks[c].phase == Registered && c !in s.list {
      assert Absent(s.stacks, RemoveF(c));
      PushKeepsDistinct(s.stacks, t, RemoveF(c));
    }
  }

  lemma RemoveKeepsWinner(s: Sys, t: nat, c: nat)
    requires Inv(s) && DataInv(Next(s, Remove(t, c)))
    ensures WinnerInv(Next(s, Remove(t, c)))
  {
  }

  lemma AwaitRemovalKeepsData(s: Sys, t: nat)
    requires Inv(s)
    ensures DataInv(Next(s, AwaitRemoval(t)))
  {
    if HasTop(s, t) && Top(s, t).RemoveF? {
      assert FrameOk(s, t, |s.stacks[t]| - 1, Top(s, t));
    }
  }

  // A step that takes the top frame off a stack and does not disturb what the other frames rely on.
  lemma PopKeepsFrames(s: Sys, s': Sys, t: nat)
    requires FramesInv(s) && Distinct(s.stacks) && HasTop(s, t) && s'.stacks == Pop(s, t).stacks
    requires forall u, i, f :: f != Top(s, t) && FrameOk(s, u, i, f) ==> FrameOk(s', u, i, f)
    ensures FramesInv(s') && Distinct(s'.stacks)
  {
  }

  lemma AwaitRemovalKeepsFrames(s: Sys, t: nat)
    requires Inv(s)
    ensures FramesInv(Next(s, AwaitRemoval(t))) && Distinct(Next(s, AwaitRemoval(t)).stacks)
  {
    var s' := Next(s, AwaitRemoval(t));
    if s' != s {
      PopKeepsFrames(s, s', t);
    }
  }

  lemma AwaitRemovalKeepsWinner(s: Sys, t: nat)
    requires Inv(s) && DataInv(Next(s, AwaitRemoval(t)))
    ensures WinnerInv(Next(s, AwaitRemoval(t)))
  {
  }

  lemma NextKeepsInv(s: Sys, step: Step)
    requires Inv(s)
    ensures Inv(Next(s, step))
  {
    match step
    case RequestStop(t) => RequestStopKeepsData(s, t); RequestStopKeepsFrames(s, t); RequestStopKeepsWinner(s, t);
    case StartCallback(t) =>
      StartCallbackKeepsData(s, t); StartCallbackKeepsFrames(s, t); StartCallbackKeepsWinner(s, t);
    case EndCallback(t) => EndCallbackKeepsData(s, t); EndCallbackKeepsFrames(s, t); EndCallbackKeepsWinner(s, t);
    case AfterCallback(t) =>
      AfterCallbackKeepsData(s, t); AfterCallbackKeepsFrames(s, t); AfterCallbackKeepsWinner(s, t);
    case PopNext(t) => PopNextKeepsData(s, t); PopNextKeepsFrames(s, t); PopNextKeepsWinner(s, t);
    case Add(t, c) =>
      AddKeepsData(s, t, c); AddKeepsFrames(s, t, c); AddKeepsDistinct(s, t, c); AddKeepsWinner(s, t, c);
    case EndAdd(t) => EndAddKeepsData(s, t); EndAddKeepsFrames(s, t); EndAddKeepsWinner(s, t);
    case Remove(t, c) => RemoveKeepsData(s, t, c); RemoveKeepsFrames(s, t, c); RemoveKeepsWinner(s, t, c);
    case AwaitRemoval(t) => AwaitRemovalKeepsData(s, t); AwaitRemovalKeepsFrames(s, t); AwaitRemovalKeepsWinner(s, t);
    case DropSource =>
  }

  // ---- the theorems ----

  lemma {:induction false} ExecKeepsInv(s0: Sys, steps: seq<Step>)
    requires Inv(s0)
    ensures Inv(Exec(s0, steps))
  {
    if steps != [] {
      ExecKeepsInv(s0, steps[..|steps| - 1]);
      NextKeepsInv(Exec(s0, steps[..|steps| - 1]), steps[|steps| - 1]);
    }
  }

  lemma InitHasInv(threads: nat, callbacks: nat, sources: nat)
    ensures Inv(Init(threads, callbacks, sources))
  {
  }

  // The states some run leads to.
  ghost predicate Reachable(s: Sys) {
    exists threads: nat, callbacks: nat, sources: nat, steps ::
      s == Exec(Init(threads, callbacks, sources), steps)
  }

  lemma ReachableHasInv(s: Sys)
    requires Reachable(s)
    ensures Inv(s)
  {
    var threads: nat, callbacks: nat, sources: nat, steps :| s == Exec(Init(threads, callbacks, sources), steps);
    InitHasInv(threads, callbacks, sources);
    ExecKeepsInv(Init(threads, callbacks, sources), steps);
  }

  /**
   At most one `request_stop` ever returns true. Once any call of it has returned and none is still at work,
   exactly one has; and a call that returns false does so after the stop was requested.
   */
  lemma OneRequestWins(s: Sys)
    requires Reachable(s)
    ensures s.trueReturns <= 1
    ensures s.falseReturns > 0 ==> s.stop
    ensures s.falseReturns + s.trueReturns > 0 && !InCall(s.request) ==> s.trueReturns == 1
  {
    ReachableHasInv(s);
  }

  /** No callback is started twice, by whichever thread and whether on request or on registration. */
  lemma StartedAtMostOnce(s: Sys, c: nat)
    requires Reachable(s) && c < |s.callbacks|
    ensures s.callbacks[c].ends <= s.callbacks[c].starts <= 1
  {
    ReachableHasInv(s);
  }

  /**
   Once a removal has returned, the callback is never started, and the object is never written again: the
   only thing that may still happen is that its own running code, which called the removal, ends.
   */
  lemma {:induction false} GoneForGood(s: Sys, more: seq<Step>, c: nat)
    requires Reachable(s) && c < |s.callbacks| && s.callbacks[c].phase == Gone
    ensures c < |Exec(s, more).callbacks|
    ensures var before, after := s.callbacks[c], Exec(s, more).callbacks[c];
            after == before.(ends := after.ends)
  {
    ReachableHasInv(s);
    if more != [] {
      var n := |more| - 1;
      GoneForGood(s, more[..n], c);
      ExecKeepsInv(s, more[..n]);
      GoneIsLeftAlone(Exec(s, more[..n]), more[n], c);
    }
  }

  lemma GoneIsLeftAlone(s: Sys, step: Step, c: nat)
    requires Inv(s) && c < |s.callbacks| && s.callbacks[c].phase == Gone
    ensures c < |Next(s, step).callbacks|
    ensures Next(s, step).callbacks[c] == s.callbacks[c].(ends := Next(s, step).callbacks[c].ends)
  {
    if step.EndAdd? || step.AwaitRemoval? {
      ReturnLeavesGoneAlone(s, step, c);
    } else if step.StartCallback? || step.AfterCallback? {
      WinnerLeavesGoneAlone(s, step, c);
    }
  }

  // A registration or a removal that returns is that of a callback in another phase.
  lemma ReturnLeavesGoneAlone(s: Sys, step: Step, c: nat)
    requires Inv(s) && c < |s.callbacks| && s.callbacks[c].phase == Gone
    requires step.EndAdd? || step.AwaitRemoval?
    ensures c < |Next(s, step).callbacks| && Next(s, step).callbacks[c] == s.callbacks[c]
  {
  }

  lemma WinnerLeavesGoneAlone(s: Sys, step: Step, c: nat)
    requires Inv(s) && c < |s.callbacks| && s.callbacks[c].phase == Gone
    requires step.StartCallback? || step.AfterCallback?
    ensures c < |Next(s, step).callbacks| && Next(s, step).callbacks[c] == s.callbacks[c]
  {
  }

  /** When the winning `request_stop` has returned, every callback ever linked has run to its end or is removed. */
  lemma WinnerLeavesNothing(s: Sys, c: nat)
    requires Reachable(s) && s.trueReturns == 1
    requires c < |s.callbacks| && s.callbacks[c].phase in {Registered, Removing}
    ensures s.list == [] && s.callbacks[c].starts == 1 && s.callbacks[c].ends == 1
  {
    ReachableHasInv(s);
    assert CallbackOk(s.callbacks[c], c, c in s.list, s.request);
  }

  lemma ReturnIsOfARemoval(s: Sys, step: Step, c: nat)
    requires c < |s.callbacks| && c < |Next(s, step).callbacks|
    requires s.callbacks[c].phase != Gone && Next(s, step).callbacks[c].phase == Gone
    ensures (step.Remove? && step.c == c && c in s.list && Next(s, step) == DoRemove(s, step.t, c))
         || (step.AwaitRemoval? && HasTop(s, step.t) && Top(s, step.t) == RemoveF(c) &&
             Next(s, step) == DoAwaitRemoval(s, step.t, c))
  {
  }

  lemma AwaitedHasEnded(s: Sys, t: nat, c: nat)
    requires Inv(s) && HasTop(s, t) && Top(s, t) == RemoveF(c) && c < |s.callbacks|
    requires s.signalling == Some(t) || s.callbacks[c].finished
    ensures s.callbacks[c].starts == s.callbacks[c].ends
         || (s.signalling == Some(t) && s.request.Executing? && s.request.c == c &&
             exists i :: 0 <= i < |s.stacks[t]| && s.stacks[t][i] == BodyF(c))
  {
  }

  /**
   When a removal returns, the callback is not running and never will be: it was unlinked before it could
   start, or it has ended; the one exception is a callback removed on the very thread that is executing it.
   */
  lemma {:induction false} RemovalWaits(s: Sys, step: Step, c: nat)
    requires Reachable(s) && c < |s.callbacks| && c < |Next(s, step).callbacks|
    requires s.callbacks[c].phase != Gone && Next(s, step).callbacks[c].phase == Gone
    ensures var x := Next(s, step).callbacks[c];
            || x.starts == x.ends
            || (step.AwaitRemoval? && s.signalling == Some(step.t) && s.request.Executing? && s.request.c == c &&
                 exists i :: 0 <= i < |s.stacks[step.t]| && s.stacks[step.t][i] == BodyF(c))
  {
    ReachableHasInv(s);
    ReturnIsOfARemoval(s, step, c);
    if step.AwaitRemoval? {
      AwaitedHasEnded(s, step.t, c);
    } else {
      assert CallbackOk(s.callbacks[c], c, true, s.request);
    }
  }
}
