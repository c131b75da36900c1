/**
 The state objects of coroutines, linked to the states of their awaiters, and the schedulers they run on.
 `chain` is the ghost list of states met by following `parent`, ending at the root.
 */
module FutureState {
  import opened Prelude
  import opened RunQueue
  import opened FutureSpec

  class FutureState {
    var coro: bool
    var initor: Initor
    var hasValue: Result
    const isFuture: bool
    var parent: FutureState?
    var scheduler: Scheduler?<FutureState>

    // A state as allocated: by the promise of a coroutine, or, with `awaitor`, for an asynchronous function.
    constructor (awaitor: bool)
      ensures Model() == State(NoInitor, false, NoResult, !awaitor) && parent == null && scheduler == null
    {
      coro, initor, hasValue := false, NoInitor, NoResult;
      isFuture := !awaitor;
      parent, scheduler := null, null;
    }

    function Model(): State
      reads this`coro, this`initor, this`hasValue
    {
      State(initor, coro, hasValue, isFuture)
    }

    // ---- the chain of awaiters ----

    ghost predicate IsChain(chain: seq<FutureState>)
      reads chain
    {
      && chain != [] && chain[0] == this
      && (forall i :: 0 <= i < |chain| - 1 ==> chain[i].parent == chain[i + 1])
      && chain[|chain| - 1].parent == null
    }

    /** The root is the end of the chain, whichever chain from here one takes. */
    method GetRoot(ghost chain: seq<FutureState>) returns (root: FutureState)
      requires IsChain(chain)
      ensures root == chain[|chain| - 1] && root.parent == null
    {
      root := this;
      var next := root.parent;
      ghost var i := 0;
      while next != null
        invariant 0 <= i < |chain| && root == chain[i] && next == root.parent
        invariant i < |chain| - 1 ==> chain[i].parent == chain[i + 1]
        decreases |chain| - i
      {
        root := next;
        next := next.parent;
        i := i + 1;
      }
    }

    // The scheduler a state runs on: its own, or else that of its root.
    ghost function SchedulerOf(chain: seq<FutureState>): Scheduler?<FutureState>
      requires IsChain(chain)
      reads chain
    {
      if scheduler != null then scheduler else chain[|chain| - 1].scheduler
    }

    ghost function SchedulerSet(chain: seq<FutureState>): set<Scheduler<FutureState>>
      requires IsChain(chain)
      reads chain
    {
      if SchedulerOf(chain) == null then {} else {SchedulerOf(chain)}
    }

    method GetScheduler(ghost chain: seq<FutureState>) returns (sch: Scheduler?<FutureState>)
      requires IsChain(chain)
      ensures sch == SchedulerOf(chain)
    {
      if scheduler != null {
        return scheduler;
      }
      var root := GetRoot(chain);
      return root.scheduler;
    }

    // ---- the locked sections ----

    // What a locked section did to the scheduler's run queue and task table.
    twostate predicate Reacted(sch: Scheduler<FutureState>, out: Reaction)
      reads sch
    {
      && sch.runingStates == old(sch.runingStates) + (if out.enqueue then [this] else [])
      && sch.readyTask == old(sch.readyTask) - (if out.dropTask then {this} else {})
    }

    method PromiseInitialSuspend()
      requires scheduler == null && !coro
      modifies this`initor
      ensures initor == Initial && HasHandler(Model())
      ensures Model() == InitialSuspend(old(Model()))
    {
      initor := Initial;
    }

    // Both the value and the exception of a non-void state count as its result.
    method SetResult(r: Result, ghost chain: seq<FutureState>)
      requires IsChain(chain) && r != NoResult
      modifies this`hasValue, SchedulerSet(chain)
      ensures var sch := old(SchedulerOf(chain));
              var out := FutureSpec.SetResult(old(Model()), r, sch != null);
              Model() == out.state && (sch != null ==> Reacted(sch, out))
      ensures hasValue == r
      ensures var sch := old(SchedulerOf(chain));
              sch != null ==>
                if coro || initor != NoInitor then
                  sch.runingStates == old(sch.runingStates) + [this] && sch.readyTask == old(sch.readyTask)
                else
                  sch.runingStates == old(sch.runingStates) && sch.readyTask == old(sch.readyTask) - {this}
    {
      hasValue := r;
      var sch := GetScheduler(chain);
      if sch != null {
        if coro || initor != NoInitor {
          sch.AddGenerator(this);
        } else {
          sch.DelFinal(this);
        }
      }
    }

    /** The await of this state by the coroutine of `awaiter`, which becomes its parent and lends its scheduler. */
    method FutureAwaitSuspend(awaiter: FutureState, ghost awaiterChain: seq<FutureState>)
      requires awaiter.IsChain(awaiterChain)
      modifies this`coro, this`parent, this`scheduler
      modifies awaiter.SchedulerSet(awaiterChain)`runingStates, awaiter.SchedulerSet(awaiterChain)`queue
      ensures var sch := old(awaiter.SchedulerOf(awaiterChain));
              var out := AwaitSuspend(old(Model()), sch != null);
              && Model() == out.state
              && (sch != null ==> Reacted(sch, out))
              && (this != awaiter ==> parent == awaiter && scheduler == sch)
              && (this == awaiter ==> parent == old(parent) && scheduler == old(scheduler))
      ensures var sch := old(awaiter.SchedulerOf(awaiterChain));
              var entry := if hasValue != NoResult || isFuture then [this] else [];
              coro && (sch != null ==> sch.runingStates == old(sch.runingStates) + entry)
    {
      var sch := awaiter.GetScheduler(awaiterChain);
      if this != awaiter {
        parent := awaiter;
        scheduler := sch;
      }
      if !coro {
        coro := true;
      }
      if sch != null && (hasValue != NoResult || isFuture) {
        sch.AddGenerator(this);
      }
    }

    method PromiseFinalSuspend(ghost chain: seq<FutureState>)
      requires IsChain(chain) && SchedulerOf(chain) != null
      modifies this`initor, SchedulerOf(chain)
      ensures Model() == FinalSuspend(old(Model())).state
      ensures Reacted(old(SchedulerOf(chain)), FinalSuspend(old(Model())))
      ensures var sch := old(SchedulerOf(chain));
              && initor == Final
              && sch.runingStates == old(sch.runingStates) + [this] && sch.readyTask == old(sch.readyTask) - {this}
    {
      initor := Final;
      var sch := GetScheduler(chain);
      if coro || initor != NoInitor {
        sch.AddGenerator(this);
      }
      sch.DelFinal(this);
    }

    /** One run-queue entry: at most one of starting the body, waking the awaiter and destroying the frame. */
    method Resume() returns (action: Action)
      modifies this`coro, this`initor
      ensures (Model(), action) == FutureSpec.Resume(old(Model()))
      ensures coro == (old(coro) && action != ResumeAwaiter)
      ensures initor == if action in {StartBody, DestroyFrame} then NoInitor else old(initor)
      ensures action == StartBody <==> old(initor) == Initial
      ensures action == ResumeAwaiter <==> old(initor) != Initial && old(coro)
      ensures action == DestroyFrame <==> old(initor) == Final && !old(coro)
    {
      if initor == Initial {
        initor := NoInitor;
        return StartBody;
      }
      if coro {
        coro := false;
        return ResumeAwaiter;
      }
      if initor == Final {
        initor := NoInitor;
        return DestroyFrame;
      }
      return NoAction;
    }

    // ---- switching schedulers ----

    // What the task table of `x` says of `k`.
    static function EntryOf(x: Scheduler<FutureState>, k: FutureState): Option<Task>
      reads x`readyTask
    {
      if k in x.readyTask then Some(x.readyTask[k]) else None
    }

    // This state is on `sch` now, and so is the task entry that its old scheduler `from` had for it.
    twostate predicate Moved(from: Scheduler?<FutureState>, sch: Scheduler<FutureState>)
      reads this`scheduler, sch`readyTask, (if from == null then {} else {from})`readyTask
    {
      && scheduler == sch && from != sch
      && (from == null ==> EntryOf(sch, this) == old(EntryOf(sch, this)))
      && (from != null ==>
           && EntryOf(from, this) == None
           && EntryOf(sch, this) ==
                if old(EntryOf(sch, this)) != None then old(EntryOf(sch, this)) else old(EntryOf(from, this)))
    }

    // The part of a switch that concerns this state alone.
    method MoveTo(sch: Scheduler<FutureState>, ghost all: set<Scheduler<FutureState>>)
      requires scheduler != sch && sch in all && (scheduler != null ==> scheduler in all)
      modifies this`scheduler, all`readyTask
      ensures Moved(old(scheduler), sch)
      ensures forall x, k :: x in all && (k != this || x !in [old(scheduler), sch]) && old(allocated(k)) ==>
                EntryOf(x, k) == old(EntryOf(x, k))
    {
      if scheduler != null {
        var task := scheduler.DelSwitch(this);
        scheduler := sch;
        if task.Some? {
          sch.AddSwitch(this, task.value);
        }
      } else {
        scheduler := sch;
      }
    }

    ghost predicate OnlySchedulers(chain: seq<FutureState>, all: set<Scheduler<FutureState>>)
      reads chain`scheduler
    {
      forall i :: 0 <= i < |chain| && chain[i].scheduler != null ==> chain[i].scheduler in all
    }

    // Neither this position of the chain nor an earlier one is on `sch`: a switch to `sch` gets here.
    static ghost predicate AheadOf(chain: seq<FutureState>, i: nat, sch: Scheduler<FutureState>)
      requires i < |chain|
      reads chain`scheduler
    {
      forall j :: 0 <= j <= i ==> chain[j].scheduler != sch
    }

    // The effect of a switch to `sch`, for the states ahead of the first one that was on it and for the others.
    twostate predicate Switched(sch: Scheduler<FutureState>, chain: seq<FutureState>, all: set<Scheduler<FutureState>>)
      requires sch in all && old(OnlySchedulers(chain, all))
      reads chain`scheduler, all`readyTask
    {
      && (forall i :: 0 <= i < |chain| && old(AheadOf(chain, i, sch)) ==>
           chain[i].Moved(old(chain[i].scheduler), sch))
      && (forall i :: 0 <= i < |chain| && !old(AheadOf(chain, i, sch)) ==>
           chain[i].scheduler == old(chain[i].scheduler))
      && forall x, i :: x in all && 0 <= i < |chain| ==>
           if old(AheadOf(chain, i, sch)) && x in [old(chain[i].scheduler), sch] then true
           else EntryOf(x, chain[i]) == old(EntryOf(x, chain[i]))
    }

    /**
     `via`: the states of the chain, up to the first one that is on `sch` already, move to `sch`, each with
     its entry in the task table of its old scheduler; everything else stays.
     */
    method SwitchScheduler(sch: Scheduler<FutureState>, ghost chain: seq<FutureState>,
                           ghost all: set<Scheduler<FutureState>>)
      returns (switched: bool)
      requires IsChain(chain) && NoDuplicates(chain) && sch in all && OnlySchedulers(chain, all)
      modifies chain`scheduler, all`readyTask
      ensures switched <==> old(scheduler) != sch
      ensures Switched(sch, chain, all)
      ensures forall x, k :: x in all && k !in chain && old(allocated(k)) ==> EntryOf(x, k) == old(EntryOf(x, k))
      decreases |chain|
    {
      if scheduler == sch {
        return false;
      }
      assert |chain| > 1 ==> chain[0].parent == chain[1];
      ghost var rest := chain[1..];
      MoveTo(sch, all);
      label moved:
      if parent != null {
        assert parent.IsChain(rest);
        var _ := parent.SwitchScheduler(sch, rest, all);
        assert forall i :: 1 <= i < |chain| ==> chain[i] == rest[i - 1];
        forall i | 1 <= i < |chain| ensures old(AheadOf(chain, i, sch)) <==> old@moved(AheadOf(rest, i - 1, sch)) {
        }
        forall i | 1 <= i < |chain| && old(AheadOf(chain, i, sch))
          ensures chain[i].Moved(old(chain[i].scheduler), sch)
        {
          assert rest[i - 1].Moved@moved(old(chain[i].scheduler), sch);
        }
      }
      assert chain[0].Moved(old(chain[0].scheduler), sch);
      return true;
    }

    ghost predicate AllOn(chain: seq<FutureState>, x: Scheduler?<FutureState>)
      reads chain`scheduler
    {
      forall i :: 0 <= i < |chain| ==> chain[i].scheduler == x
    }

    // Of all schedulers, only `home` has an entry for `k`, and that is `task`.
    static ghost predicate OnlyEntry(all: set<Scheduler<FutureState>>, k: FutureState, home: Scheduler?<FutureState>,
                                     task: Task)
      reads all`readyTask
    {
      forall x :: x in all ==> EntryOf(x, k) == if x == home then Some(task) else None
    }

    // The effect on a chain that ran on the scheduler of this state: all of it is on `sch`, and a task entry
    // that was in the table of the old scheduler only is in the table of `sch` only.
    twostate predicate SwitchedWhole(sch: Scheduler<FutureState>, chain: seq<FutureState>,
                                     all: set<Scheduler<FutureState>>)
      reads chain`scheduler, all`readyTask
    {
      && AllOn(chain, sch)
      && (old(scheduler) != null ==>
           forall i, task :: 0 <= i < |chain| && old(OnlyEntry(all, chain[i], scheduler, task)) ==>
             OnlyEntry(all, chain[i], sch, task))
    }

    /**
     The switch once more, with what it means for a chain that runs on one scheduler: it moves as a whole, and a
     task entry that was in the table of the old scheduler only is in the table of `sch` only.
     */
    method SwitchWholeChain(sch: Scheduler<FutureState>, ghost chain: seq<FutureState>,
                            ghost all: set<Scheduler<FutureState>>)
      returns (switched: bool)
      requires IsChain(chain) && NoDuplicates(chain) && sch in all && OnlySchedulers(chain, all)
      modifies chain`scheduler, all`readyTask
      ensures switched <==> old(scheduler) != sch
      ensures Switched(sch, chain, all) && (old(AllOn(chain, scheduler)) ==> SwitchedWhole(sch, chain, all))
      ensures forall x, k :: x in all && k !in chain && old(allocated(k)) ==> EntryOf(x, k) == old(EntryOf(x, k))
    {
      switched := SwitchScheduler(sch, chain, all);
      if switched && old(AllOn(chain, scheduler)) {
        forall i | 0 <= i < |chain| ensures chain[i].Moved(old(scheduler), sch) && old(AheadOf(chain, i, sch)) {
        }
        assert AllOn(chain, sch);
      }
    }

    // A state that has its result from the start and wakes `this` from the run queue of its scheduler.
    method AwaitCompleted(ghost chain: seq<FutureState>) returns (s: FutureState)
      requires IsChain(chain) && SchedulerOf(chain) != null
      modifies SchedulerOf(chain)`runingStates, SchedulerOf(chain)`queue
      ensures var sch := old(SchedulerOf(chain)); sch.runingStates == old(sch.runingStates) + [s]
      ensures fresh(s) && s.parent == this && s.scheduler == old(SchedulerOf(chain))
      ensures s.Model() == State(NoInitor, true, Value(0), false)
    {
      s := new FutureState(true);
      s.SetResult(Value(0), [s]);
      assert IsChain(chain);
      s.FutureAwaitSuspend(this, chain);
    }

    /**
     `co_await via(sch)`: beside the switch, the coroutine is queued, once and on `sch`, through a fresh state
     that has its result and the coroutine as awaiter. On `sch` already, it goes on without suspending.
     */
    method Via(sch: Scheduler<FutureState>, ghost chain: seq<FutureState>, ghost all: set<Scheduler<FutureState>>)
      returns (suspended: bool)
      requires IsChain(chain) && NoDuplicates(chain) && sch in all && OnlySchedulers(chain, all)
      modifies chain`scheduler, all`readyTask, sch`runingStates, sch`queue
      ensures suspended <==> old(scheduler) != sch
      ensures Switched(sch, chain, all) && (old(AllOn(chain, scheduler)) ==> SwitchedWhole(sch, chain, all))
      ensures forall x, k :: x in all && k !in chain && old(allocated(k)) ==> EntryOf(x, k) == old(EntryOf(x, k))
      ensures !suspended ==> sch.runingStates == old(sch.runingStates)
      ensures suspended ==>
                && |sch.runingStates| == old(|sch.runingStates|) + 1
                && sch.runingStates[..old(|sch.runingStates|)] == old(sch.runingStates)
                && var s := sch.runingStates[old(|sch.runingStates|)];
                   && fresh(s) && s.parent == this && s.scheduler == sch
                   && s.Model() == State(NoInitor, true, Value(0), false)
    {
      suspended := SwitchWholeChain(sch, chain, all);
      if suspended {
        assert old(AheadOf(chain, 0, sch));
        var _ := AwaitCompleted(chain);
      }
    }

    /** `new_task`: the state comes to run on `sch`, in its task table, and queued if it has something to run. */
    method StartTask(sch: Scheduler<FutureState>, task: Task)
      modifies this`scheduler, sch`readyTask, sch`runingStates, sch`queue
      ensures scheduler == sch
      ensures sch.readyTask == if this in old(sch.readyTask) then old(sch.readyTask)
                               else old(sch.readyTask)[this := task]
      ensures sch.runingStates == old(sch.runingStates) + if HasHandler(Model()) then [this] else []
    {
      scheduler := sch;
      sch.NewTask(this, task, HasHandler(Model()));
    }
  }
}
