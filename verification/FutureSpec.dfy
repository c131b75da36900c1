/**
 The state shared between a coroutine (or an asynchronous function) and the one coroutine that awaits it,
 as values: what each locked section does, the rendezvous of a setter with an awaiter, and the life of a
 coroutine as a sequence of run-queue entries.
 */
module FutureSpec {
  datatype Initor = NoInitor | Initial | Final
  datatype Result = NoResult | Value(v: int) | Exception(e: int)

  // `coro`: an awaiter is registered. `isFuture`: the state belongs to a coroutine.
  datatype State = State(initor: Initor, coro: bool, result: Result, isFuture: bool)

  predicate HasHandler(s: State) {
    s.coro || s.initor != NoInitor
  }

  predicate IsReady(s: State) {
    s.result != NoResult || s.isFuture
  }

  // A locked section: the new state, whether the state is queued, and whether its task entry is dropped.
  datatype Reaction = Reaction(state: State, enqueue: bool, dropTask: bool)

  function InitialSuspend(s: State): State {
    s.(initor := Initial)
  }

  function SetResult(s: State, r: Result, hasScheduler: bool): Reaction {
    var s' := s.(result := r);
    Reaction(s', hasScheduler && HasHandler(s'), hasScheduler && !HasHandler(s'))
  }

  function AwaitSuspend(s: State, hasScheduler: bool): Reaction {
    var s' := s.(coro := true);
    Reaction(s', hasScheduler && IsReady(s'), false)
  }

  function FinalSuspend(s: State): Reaction {
    var s' := s.(initor := Final);
    Reaction(s', HasHandler(s'), true)
  }

  datatype Action = StartBody | ResumeAwaiter | DestroyFrame | NoAction

  // What a run-queue entry of the state comes to.
  function Resume(s: State): (State, Action) {
    if s.initor == Initial then (s.(initor := NoInitor), StartBody)
    else if s.coro then (s.(coro := false), ResumeAwaiter)
    else if s.initor == Final then (s.(initor := NoInitor), DestroyFrame)
    else (s, NoAction)
  }

  // ---- rendezvous of one setter and one awaiter of an asynchronous function ----

  // How far `co_await` has got: about to test, about to suspend, suspended, or past it.
  datatype Awaiter = Before | Transformed | NotReady | Suspended | Past(suspended: bool)

  datatype Meeting = Meeting(
    state: State,
    hasScheduler: bool,  // the state knows a scheduler
    awaiter: Awaiter,
    seen: Result,        // what the awaiter read when it went on
    queued: nat,         // entries of the state in the run queue
    wakeUps: nat,        // times the suspended awaiter was resumed
    blindWakeUps: nat)   // those of them without a result

  datatype MeetingStep = Set(r: Result) | Transform | TestReady | Suspend | Dispatch

  function NewMeeting(): Meeting {
    Meeting(State(NoInitor, false, NoResult, false), false, Before, NoResult, 0, 0, 0)
  }

  predicate Answered(m: Meeting) {
    m.state.result != NoResult
  }

  // `scheduled` is whether the awaiting coroutine has a scheduler. Steps that cannot be taken change nothing.
  function Meet(m: Meeting, scheduled: bool, step: MeetingStep): Meeting {
    match step
    case Set(r) =>
      if Answered(m) || r == NoResult then m
      else
        var out := SetResult(m.state, r, m.hasScheduler);
        m.(state := out.state, queued := m.queued + (if out.enqueue then 1 else 0))
    case Transform => if m.awaiter == Before then m.(awaiter := Transformed, hasScheduler := scheduled) else m
    case TestReady =>
      if m.awaiter != Transformed then m
      else if m.state.result != NoResult then m.(awaiter := Past(false), seen := m.state.result)
      else m.(awaiter := NotReady)
    case Suspend =>
      if m.awaiter != NotReady then m
      else
        var out := AwaitSuspend(m.state, scheduled);
        m.(state := out.state, hasScheduler := scheduled, awaiter := Suspended,
           queued := m.queued + (if out.enqueue then 1 else 0))
    case Dispatch =>
      if m.queued == 0 then m
      else
        var (state, action) := Resume(m.state);
        var m' := m.(state := state, queued := m.queued - 1);
        if action == ResumeAwaiter then
          m'.(awaiter := Past(true), seen := m.state.result, wakeUps := m.wakeUps + 1,
              blindWakeUps := m.blindWakeUps + (if m.state.result == NoResult then 1 else 0))
        else m'
  }

  function MeetAll(scheduled: bool, steps: seq<MeetingStep>): Meeting {
    if steps == [] then NewMeeting()
    else Meet(MeetAll(scheduled, steps[..|steps| - 1]), scheduled, steps[|steps| - 1])
  }

  ghost predicate MeetingInv(m: Meeting, scheduled: bool) {
    && m.state.initor == NoInitor && !m.state.isFuture
    && (m.hasScheduler ==> scheduled)
    && (m.awaiter != Before && scheduled ==> m.hasScheduler)
    && (m.state.coro <==> m.awaiter == Suspended)
    && m.queued == (if m.awaiter == Suspended && Answered(m) && scheduled then 1 else 0)
    && m.wakeUps == (if m.awaiter == Past(true) then 1 else 0)
    && m.blindWakeUps == 0
    && (m.awaiter.Past? ==> Answered(m))
    && m.seen == (if m.awaiter.Past? then m.state.result else NoResult)
    && (m.awaiter == Past(true) ==> scheduled)
  }

  lemma {:induction false} MeetKeepsInv(scheduled: bool, steps: seq<MeetingStep>)
    ensures MeetingInv(MeetAll(scheduled, steps), scheduled)
  {
    if steps != [] {
      MeetKeepsInv(scheduled, steps[..|steps| - 1]);
    }
  }

  /**
   No lost and no double wake-up, in every interleaving: an awaiter that goes on without suspending finds the
   result; a suspended one is never resumed twice or without a result; and once the result is set, it has one
   wake-up, queued or done, if and only if its coroutine has a scheduler.
   */
  lemma {:induction false} NoLostOrDoubleWakeUp(scheduled: bool, steps: seq<MeetingStep>)
    ensures var m := MeetAll(scheduled, steps);
            && (m.awaiter == Past(false) ==> m.state.result != NoResult && m.queued + m.wakeUps == 0)
            && m.queued + m.wakeUps <= 1 && m.blindWakeUps == 0
            && (m.awaiter in {Suspended, Past(true)} && Answered(m) ==> (m.queued + m.wakeUps == 1 <==> scheduled))
            && (!Answered(m) ==> m.queued + m.wakeUps == 0)
  {
    MeetKeepsInv(scheduled, steps);
  }

  // What the setter was the first to give in a run.
  function Given(steps: seq<MeetingStep>): Result {
    if steps == [] then NoResult
    else
      var earlier := Given(steps[..|steps| - 1]);
      var step := steps[|steps| - 1];
      if earlier == NoResult && step.Set? then step.r else earlier
  }

  /**
   In every interleaving the awaiter reads what the setter gave, a value as that value and an exception as that
   exception; and it goes on only once that was given.
   */
  lemma {:induction false} AwaiterReadsWhatWasGiven(scheduled: bool, steps: seq<MeetingStep>)
    ensures var m := MeetAll(scheduled, steps);
            && m.state.result == Given(steps)
            && (m.awaiter.Past? ==> m.seen == Given(steps) != NoResult)
  {
    MeetKeepsInv(scheduled, steps);
    if steps != [] {
      AwaiterReadsWhatWasGiven(scheduled, steps[..|steps| - 1]);
    }
  }

  lemma MeetAppend(scheduled: bool, steps: seq<MeetingStep>, step: MeetingStep)
    ensures MeetAll(scheduled, steps + [step]) == Meet(MeetAll(scheduled, steps), scheduled, step)
  {
    assert (steps + [step])[..|steps|] == steps;
  }

  // The awaiter goes as far as it gets, and the scheduler dispatches once.
  const AwaitOn: seq<MeetingStep> := [Transform, TestReady, Suspend, Dispatch]

  lemma MeetOn(scheduled: bool, steps: seq<MeetingStep>)
    ensures var m := Meet(Meet(MeetAll(scheduled, steps), scheduled, Transform), scheduled, TestReady);
            MeetAll(scheduled, steps + AwaitOn) == Meet(Meet(m, scheduled, Suspend), scheduled, Dispatch)
  {
    var s1 := steps + [Transform];
    var s2 := s1 + [TestReady];
    var s3 := s2 + [Suspend];
    MeetAppend(scheduled, steps, Transform);
    MeetAppend(scheduled, s1, TestReady);
    MeetAppend(scheduled, s2, Suspend);
    MeetAppend(scheduled, s3, Dispatch);
    assert s3 + [Dispatch] == steps + AwaitOn;
  }

  /**
   At whatever point the result is there, the awaiter gets past the `co_await` if it has a scheduler. Without one
   it does so only if it has not yet found the result missing; then it stays suspended for ever.
   */
  lemma {:induction false} AwaiterGetsThroughIff(scheduled: bool, steps: seq<MeetingStep>)
    requires Given(steps) != NoResult
    ensures MeetAll(scheduled, steps + AwaitOn).awaiter.Past?
       <==> scheduled || MeetAll(scheduled, steps).awaiter !in {NotReady, Suspended}
  {
    MeetKeepsInv(scheduled, steps);
    AwaiterReadsWhatWasGiven(scheduled, steps);
    MeetOn(scheduled, steps);
  }

  // ---- the life of a coroutine ----

  datatype Body = Unstarted | Running | HasResult | Ended

  datatype Life = Life(
    state: State,
    gone: bool,            // launched by `go`
    awaiter: Awaiter,
    seen: Result,          // what the awaiter read when it went on
    launches: nat,         // by `go` and by the suspension of a `co_await`
    body: Body,
    queued: nat,
    starts: nat,
    wakeUps: nat,
    blindWakeUps: nat,     // wake-ups of the awaiter before the result
    earlyDestroys: nat,    // destructions before the body ended or before a suspended awaiter was woken
    destroys: nat,
    idle: nat,             // entries that did nothing
    hasTask: bool)         // the scheduler's table keeps the coroutine as a task

  datatype LifeStep = Go | Ready | Await | Finish(r: Result) | Conclude | Run

  function NewLife(): Life {
    var state := InitialSuspend(State(NoInitor, false, NoResult, true));
    Life(state, false, Before, NoResult, 0, Unstarted, 0, 0, 0, 0, 0, 0, 0, false)
  }

  // One `go` and one `co_await` (`Ready`, then `Await`), at any time and in any order; all under a scheduler.
  function Live(l: Life, step: LifeStep): Life {
    match step
    case Go =>
      if l.gone then l
      else
        l.(gone := true, launches := l.launches + 1, hasTask := true,
           queued := l.queued + (if HasHandler(l.state) then 1 else 0))
    case Ready =>
      if l.awaiter != Before then l
      else if l.state.result != NoResult then l.(awaiter := Past(false), seen := l.state.result)
      else l.(awaiter := NotReady)
    case Await =>
      if l.awaiter != NotReady then l
      else
        var out := AwaitSuspend(l.state, true);
        l.(awaiter := Suspended, launches := l.launches + 1, state := out.state,
           queued := l.queued + (if out.enqueue then 1 else 0))
    case Finish(r) =>
      if l.body != Running || r == NoResult then l
      else
        var out := SetResult(l.state, r, true);
        l.(body := HasResult, state := out.state, queued := l.queued + (if out.enqueue then 1 else 0),
           hasTask := l.hasTask && !out.dropTask)
    case Conclude =>
      if l.body != HasResult then l
      else
        var out := FinalSuspend(l.state);
        l.(body := Ended, state := out.state, queued := l.queued + (if out.enqueue then 1 else 0),
           hasTask := l.hasTask && !out.dropTask)
    case Run =>
      if l.queued == 0 then l
      else
        var (state, action) := Resume(l.state);
        var l' := l.(state := state, queued := l.queued - 1);
        match action
        case StartBody => l'.(starts := l.starts + 1, body := Running)
        case ResumeAwaiter =>
          l'.(awaiter := Past(true), seen := l.state.result, wakeUps := l.wakeUps + 1,
              blindWakeUps := l.blindWakeUps + (if l.state.result == NoResult then 1 else 0))
        case DestroyFrame =>
          l'.(destroys := l.destroys + 1,
              earlyDestroys := l.earlyDestroys + (if l.body != Ended || l.awaiter == Suspended then 1 else 0))
        case NoAction => l'.(idle := l.idle + 1)
  }

  function LiveOn(l: Life, steps: seq<LifeStep>): Life {
    if steps == [] then l else Live(LiveOn(l, steps[..|steps| - 1]), steps[|steps| - 1])
  }

  function LiveAll(steps: seq<LifeStep>): Life {
    LiveOn(NewLife(), steps)
  }

  // The step launches the coroutine.
  predicate IsLaunch(l: Life, step: LifeStep) {
    (step.Go? && !l.gone) || (step.Await? && l.awaiter == NotReady)
  }

  // A launch now would be the second of a coroutine that has no result yet.
  predicate Premature(l: Life) {
    l.launches > 0 && l.state.result == NoResult
  }

  // No launch of the run was premature.
  predicate Proper(steps: seq<LifeStep>) {
    steps == [] || (
      var before := steps[..|steps| - 1];
      Proper(before) && (IsLaunch(LiveAll(before), steps[|steps| - 1]) ==> !Premature(LiveAll(before))))
  }

  // How many of the three obligations the queue entries still have to discharge.
  function Due(l: Life): nat {
    (if l.launches > 0 && l.state.initor == Initial then 1 else 0)
    + (if l.state.coro && l.state.result != NoResult then 1 else 0)
    + (if l.state.initor == Final then 1 else 0)
  }

  // The parts of a coroutine agree, whatever its queue entries are.
  ghost predicate PartsInv(l: Life) {
    && l.state.isFuture
    && (l.state.initor == Initial <==> l.body == Unstarted)
    && (l.state.initor == Final <==> l.body == Ended && l.destroys == 0)
    && (l.state.result != NoResult <==> l.body in {HasResult, Ended})
    && l.starts == (if l.body == Unstarted then 0 else 1)
    && (l.state.coro <==> l.awaiter == Suspended)
    && l.wakeUps == (if l.awaiter == Past(true) then 1 else 0)
    && l.destroys <= 1 && (l.destroys == 1 ==> l.body == Ended)
    && l.earlyDestroys == 0
    && (l.body != Unstarted || l.queued > 0 ==> l.launches > 0)
    && l.launches == (if l.gone then 1 else 0) + (if l.awaiter in {Suspended, Past(true)} then 1 else 0)
    && (l.awaiter == Past(false) ==> l.state.result != NoResult && l.seen == l.state.result)
  }

  // The queue of a coroutine that was not launched prematurely.
  ghost predicate QueueInv(l: Life) {
    && l.blindWakeUps == 0
    && (l.awaiter == Past(true) ==> l.state.result != NoResult && l.seen == l.state.result)
    && Due(l) <= l.queued
    && (l.launches <= 1 || l.state.result == NoResult ==> l.queued == Due(l))
    && (l.launches <= 1 ==> l.idle == 0)
    && (l.launches <= 1 ==> (l.hasTask <==> l.gone && l.state.result == NoResult))
  }

  lemma LiveKeepsParts(l: Life, step: LifeStep)
    requires PartsInv(l)
    ensures PartsInv(Live(l, step))
  {
  }

  lemma RunKeepsQueue(l: Life)
    requires PartsInv(l) && QueueInv(l)
    ensures QueueInv(Live(l, Run))
  {
  }

  lemma LaunchKeepsQueue(l: Life, step: LifeStep)
    requires PartsInv(l) && QueueInv(l) && IsLaunch(l, step) && !Premature(l)
    ensures QueueInv(Live(l, step))
  {
  }

  lemma BodyKeepsQueue(l: Life, step: LifeStep)
    requires PartsInv(l) && QueueInv(l) && (step.Finish? || step.Conclude?)
    ensures QueueInv(Live(l, step))
  {
  }

  lemma LiveKeepsQueue(l: Life, step: LifeStep)
    requires PartsInv(l) && QueueInv(l) && (IsLaunch(l, step) ==> !Premature(l))
    ensures QueueInv(Live(l, step))
  {
    match step
    case Run => RunKeepsQueue(l);
    case Finish(_) => BodyKeepsQueue(l, step);
    case Conclude => BodyKeepsQueue(l, step);
    case _ => if IsLaunch(l, step) { LaunchKeepsQueue(l, step); }
  }

  lemma {:induction false} LiveAllKeepsInv(steps: seq<LifeStep>)
    ensures PartsInv(LiveAll(steps))
    ensures Proper(steps) ==> QueueInv(LiveAll(steps))
  {
    if steps != [] {
      LiveAllKeepsInv(steps[..|steps| - 1]);
      LiveKeepsParts(LiveAll(steps[..|steps| - 1]), steps[|steps| - 1]);
      if Proper(steps) {
        LiveKeepsQueue(LiveAll(steps[..|steps| - 1]), steps[|steps| - 1]);
      }
    }
  }

  // A coroutine launched once was launched properly.
  lemma {:induction false} OnceIsProper(steps: seq<LifeStep>)
    requires LiveAll(steps).launches <= 1
    ensures Proper(steps)
  {
    if steps != [] {
      OnceIsProper(steps[..|steps| - 1]);
    }
  }

  /**
   A coroutine over every run in which no launch was premature, so in particular launched once: body started
   at most once, awaiter resumed at most once and only with the result, frame destroyed at most once and
   last; when the body has ended and the queue is empty, all of it has happened exactly once.
   */
  lemma {:induction false} CoroutineLifecycle(steps: seq<LifeStep>)
    requires Proper(steps)
    ensures var l := LiveAll(steps);
            && l.starts <= 1 && l.wakeUps <= 1 && l.destroys <= 1
            && l.blindWakeUps == 0 && l.earlyDestroys == 0
            && (l.body == Ended && l.queued == 0 ==> l.starts == 1 && l.destroys == 1 && l.awaiter != Suspended)
            && (l.awaiter == Past(true) <==> l.wakeUps == 1)
  {
    LiveAllKeepsInv(steps);
  }

  /**
   Launched once, every queue entry discharges exactly one of the obligations, none is without effect, and
   the scheduler's table keeps the coroutine exactly if it was launched by `go` and has no result yet.
   */
  lemma {:induction false} LaunchedOnce(steps: seq<LifeStep>)
    requires LiveAll(steps).launches <= 1
    ensures Proper(steps)
    ensures var l := LiveAll(steps);
            && l.queued == Due(l) && l.idle == 0
            && (l.hasTask <==> l.gone && l.state.result == NoResult)
  {
    OnceIsProper(steps);
    LiveAllKeepsInv(steps);
  }

  // What is left to happen, if the body only finishes.
  const Completion: seq<LifeStep> := [Run, Finish(Value(0)), Conclude, Run, Run]

  lemma LiveOnCompletion(steps: seq<LifeStep>)
    ensures var l := Live(Live(Live(LiveAll(steps), Run), Finish(Value(0))), Conclude);
            LiveAll(steps + Completion) == Live(Live(l, Run), Run)
  {
    var s1 := steps + [Run];
    var s2 := s1 + [Finish(Value(0))];
    var s3 := s2 + [Conclude];
    var s4 := s3 + [Run];
    LiveAppend(steps, Run);
    LiveAppend(s1, Finish(Value(0)));
    LiveAppend(s2, Conclude);
    LiveAppend(s3, Run);
    LiveAppend(s4, Run);
    assert s4 + [Run] == steps + Completion;
  }

  /**
   Nothing gets lost on the way: from every point of a properly launched coroutine's life its entries suffice to
   start the body, to wake the awaiter once the body has finished, and to destroy the frame.
   */
  lemma {:induction false} LaunchedRunsToItsEnd(steps: seq<LifeStep>)
    requires Proper(steps) && LiveAll(steps).launches > 0
    ensures var l := LiveAll(steps + Completion);
            l.body == Ended && l.starts == 1 && l.destroys == 1 && l.awaiter != Suspended
  {
    LiveAllKeepsInv(steps);
    LiveOnCompletion(steps);
    EntriesSuffice(LiveAll(steps));
  }

  lemma EntriesSuffice(l: Life)
    requires PartsInv(l) && QueueInv(l) && l.launches > 0
    ensures var e := Live(Live(Live(Live(Live(l, Run), Finish(Value(0))), Conclude), Run), Run);
            e.body == Ended && e.starts == 1 && e.destroys == 1 && e.awaiter != Suspended
  {
    var l1 := Live(l, Run);
    var l2 := Live(l1, Finish(Value(0)));
    RunStartsBody(l);
    StepOfLaunched(l, Run);
    StepOfLaunched(l1, Finish(Value(0)));
    StepOfLaunched(l2, Conclude);
    LastEntries(Live(l2, Conclude));
  }

  lemma StepOfLaunched(l: Life, step: LifeStep)
    requires PartsInv(l) && QueueInv(l) && l.launches > 0 && !IsLaunch(l, step)
    ensures PartsInv(Live(l, step)) && QueueInv(Live(l, step)) && Live(l, step).launches > 0
  {
    LiveKeepsParts(l, step);
    LiveKeepsQueue(l, step);
  }

  lemma RunStartsBody(l: Life)
    requires PartsInv(l) && QueueInv(l) && l.launches > 0
    ensures Live(l, Run).body != Unstarted
  {
  }

  lemma LastEntries(l: Life)
    requires PartsInv(l) && QueueInv(l) && l.launches > 0 && l.body == Ended
    ensures var e := Live(Live(l, Run), Run);
            e.body == Ended && e.starts == 1 && e.destroys == 1 && e.awaiter != Suspended
  {
  }

  // ---- what the body gave ----

  lemma {:induction false} ResultIsFinal(l: Life, more: seq<LifeStep>)
    requires PartsInv(l) && l.state.result != NoResult
    ensures PartsInv(LiveOn(l, more)) && LiveOn(l, more).state.result == l.state.result
  {
    if more != [] {
      ResultIsFinal(l, more[..|more| - 1]);
      LiveKeepsParts(LiveOn(l, more[..|more| - 1]), more[|more| - 1]);
      LiveKeepsResult(LiveOn(l, more[..|more| - 1]), more[|more| - 1]);
    }
  }

  lemma LiveKeepsResult(l: Life, step: LifeStep)
    requires PartsInv(l) && l.state.result != NoResult
    ensures Live(l, step).state.result == l.state.result
  {
  }

  lemma {:induction false} LiveOnAppend(steps: seq<LifeStep>, more: seq<LifeStep>)
    ensures LiveAll(steps + more) == LiveOn(LiveAll(steps), more)
  {
    if more == [] {
      assert steps + more == steps;
    } else {
      var n := |more| - 1;
      LiveOnAppend(steps, more[..n]);
      assert (steps + more)[..|steps + more| - 1] == steps + more[..n];
    }
  }

  /**
   What a running body finishes with, a value or an exception, stays the result of the coroutine for good. An
   awaiter that goes on afterwards reads exactly that, unless a premature launch had woken it already.
   */
  lemma {:induction false} AwaiterReadsWhatTheBodyGave(steps: seq<LifeStep>, r: Result, more: seq<LifeStep>)
    requires LiveAll(steps).body == Running && r != NoResult
    ensures var l := LiveAll(steps + [Finish(r)] + more);
            && l.state.result == r
            && (Proper(steps + [Finish(r)] + more) && l.awaiter.Past? ==> l.seen == r)
  {
    LiveAllKeepsInv(steps);
    LiveAppend(steps, Finish(r));
    LiveAllKeepsInv(steps + [Finish(r)]);
    LiveOnAppend(steps + [Finish(r)], more);
    ResultIsFinal(LiveAll(steps + [Finish(r)]), more);
    LiveAllKeepsInv(steps + [Finish(r)] + more);
  }

  /** A coroutine launched by `go` is off the scheduler's table as soon as its body has ended, for good. */
  lemma {:induction false} EndedIsNoTask(steps: seq<LifeStep>, more: seq<LifeStep>)
    requires LiveAll(steps).body == HasResult && LiveAll(steps).gone
    ensures !LiveAll(steps + [Conclude] + more).hasTask
  {
    LiveAppend(steps, Conclude);
    LiveOnAppend(steps + [Conclude], more);
    NoTaskStays(LiveAll(steps + [Conclude]), more);
  }

  lemma {:induction false} NoTaskStays(l: Life, more: seq<LifeStep>)
    requires l.gone && !l.hasTask
    ensures LiveOn(l, more).gone && !LiveOn(l, more).hasTask
  {
    if more != [] {
      NoTaskStays(l, more[..|more| - 1]);
    }
  }

  // ---- when a second launch wakes the awaiter too early ----

  predicate NoLaunches(more: seq<LifeStep>) {
    forall i :: 0 <= i < |more| ==> !more[i].Go? && !more[i].Await?
  }

  lemma {:induction false} ProperOn(steps: seq<LifeStep>, more: seq<LifeStep>)
    requires Proper(steps) && NoLaunches(more)
    ensures Proper(steps + more)
  {
    if more == [] {
      assert steps + more == steps;
    } else {
      var n := |more| - 1;
      ProperOn(steps, more[..n]);
      assert (steps + more)[..|steps + more| - 1] == steps + more[..n];
    }
  }

  /**
   A `go` or a `co_await` at any point of any run: without a further launch, the awaiter can be woken before
   the result if and only if the coroutine was launched before and has no result yet.
   */
  lemma {:induction false} LaunchIsPrematureIff(steps: seq<LifeStep>, step: LifeStep)
    requires IsLaunch(LiveAll(steps), step)
    ensures (exists more :: NoLaunches(more) && LiveAll(steps + [step] + more).blindWakeUps > 0)
       <==> Premature(LiveAll(steps))
  {
    var l := LiveAll(steps);
    LiveAllKeepsInv(steps);
    OnceIsProper(steps);
    if Premature(l) {
      PrematureWakesBlindly(steps, step);
    } else {
      assert (steps + [step])[..|steps|] == steps;
      forall more | NoLaunches(more) ensures LiveAll(steps + [step] + more).blindWakeUps == 0 {
        ProperOn(steps + [step], more);
        LiveAllKeepsInv(steps + [step] + more);
      }
    }
  }

  lemma LiveAppend(steps: seq<LifeStep>, step: LifeStep)
    ensures LiveAll(steps + [step]) == Live(LiveAll(steps), step)
  {
    assert (steps + [step])[..|steps|] == steps;
  }

  // After the premature launch: the entry that starts the body, if it is still to come, and then the one too many.
  lemma OneEntryTooMany(l: Life, step: LifeStep)
    requires PartsInv(l) && QueueInv(l) && l.launches <= 1 && IsLaunch(l, step) && Premature(l)
    ensures var ran := Live(Live(l, step), Run);
            (if l.body == Unstarted then Live(ran, Run) else ran).blindWakeUps > 0
  {
  }

  lemma PrematureWakesBlindly(steps: seq<LifeStep>, step: LifeStep)
    requires IsLaunch(LiveAll(steps), step) && Premature(LiveAll(steps))
    ensures exists more :: NoLaunches(more) && LiveAll(steps + [step] + more).blindWakeUps > 0
  {
    LiveAllKeepsInv(steps);
    OnceIsProper(steps);
    OneEntryTooMany(LiveAll(steps), step);
    var all := steps + [step];
    LiveAppend(steps, step);
    LiveAppend(all, Run);
    LiveAppend(all + [Run], Run);
    assert all + [Run] + [Run] == all + [Run, Run];
    assert NoLaunches([Run]) && NoLaunches([Run, Run]);
  }

  /** A coroutine that was launched by `go` and is awaited before it has started: the awaiter wakes without a result. */
  lemma GoThenAwait()
    ensures LiveAll([Go, Ready, Await, Run, Run]).blindWakeUps == 1
  {
    var s1, s2, s3, s4 := [Go], [Go, Ready], [Go, Ready, Await], [Go, Ready, Await, Run];
    LiveAppend([], Go);
    LiveAppend(s1, Ready);
    LiveAppend(s2, Await);
    LiveAppend(s3, Run);
    LiveAppend(s4, Run);
    assert [] + [Go] == s1 && s1 + [Ready] == s2 && s2 + [Await] == s3 && s3 + [Run] == s4;
    assert s4 + [Run] == [Go, Ready, Await, Run, Run];
  }

  /** One that is awaited while it runs may be lucky: here the result comes before the entry that the await queued. */
  lemma GoAndRunThenAwait()
    ensures LiveAll([Go, Run, Ready, Await, Finish(Value(0)), Run]).blindWakeUps == 0
  {
    var s1, s2, s3, s4 := [Go], [Go, Run], [Go, Run, Ready], [Go, Run, Ready, Await];
    var s5 := [Go, Run, Ready, Await, Finish(Value(0))];
    LiveAppend([], Go);
    LiveAppend(s1, Run);
    LiveAppend(s2, Ready);
    LiveAppend(s3, Await);
    LiveAppend(s4, Finish(Value(0)));
    LiveAppend(s5, Run);
    assert [] + [Go] == s1 && s1 + [Run] == s2 && s2 + [Ready] == s3 && s3 + [Await] == s4;
    assert s4 + [Finish(Value(0))] == s5 && s5 + [Run] == [Go, Run, Ready, Await, Finish(Value(0)), Run];
  }
}
