/** The timer manager as an object, against the timers as values. */
module Timer {
  import opened TimerSpec

  // A callback does not look at the running timers: taking some of them away commutes with it.
  lemma {:induction false} ActsFrame(s: Timers, acts: seq<Act>, r: seq<nat>)
    ensures Acts(s.(runing := r), acts) == Acts(s, acts).(runing := r)
    decreases |acts|
  {
    if acts != [] {
      ActsFrame(Acted(s, acts[0]), acts[1..], r);
    }
  }

  lemma CallTargetFrame(s: Timers, id: nat, e: Event, script: Script, r: seq<nat>)
    requires id < |s.targets|
    ensures CallTarget(s.(runing := r), id, e, script) == CallTarget(s, id, e, script).(runing := r)
  {
    ActsFrame(Uncalled(s, id).(log := s.log + [e]), script(id), r);
  }

  class TimerManager {
    var targets: seq<Target>
    var addedTimers: seq<nat>
    var runingTimers: seq<nat>
    ghost var log: seq<Event>

    ghost function Model(): Timers
      reads this
    {
      Timers(targets, addedTimers, runingTimers, log)
    }

    ghost predicate Valid()
      reads this
    {
      Inv(Model(), [])
    }

    constructor ()
      ensures Valid() && Model() == Timers([], [], [], [])
    {
      targets, addedTimers, runingTimers, log := [], [], [], [];
    }

    method Add(tp: int) returns (id: nat)
      modifies this`targets, this`addedTimers
      ensures targets == old(targets) + [Target(tp, Added, true)] && id == |old(targets)|
      ensures addedTimers == old(addedTimers) + [id]
      ensures Model() == TimerSpec.Add(old(Model()), tp)
      ensures old(Valid()) ==> Valid()
    {
      id := |targets|;
      targets := targets + [Target(tp, Added, true)];
      addedTimers := addedTimers + [id];
      if old(Valid()) {
        AddKeepsInv(old(Model()), [], tp);
      }
    }

    // A handle that is no longer there is one past the end.
    method Stop(id: nat) returns (stopped: bool)
      modifies this`targets, this`log
      ensures stopped <==> id < |old(targets)| && old(targets)[id].st != Invalid
      ensures targets == if stopped then old(targets)[id := old(targets)[id].(st := Invalid)] else old(targets)
      ensures log == old(log) + if stopped then [Stopped(id)] else []
      ensures Model() == TimerSpec.Stop(old(Model()), id)
      ensures old(Valid()) ==> Valid()
    {
      if old(Valid()) {
        StopKeepsInv(old(Model()), [], id);
      }
      if id >= |targets| || targets[id].st == Invalid {
        return false;
      }
      targets := targets[id := targets[id].(st := Invalid)];
      log := log + [Stopped(id)];
      return true;
    }

    // What a callback does.
    method Perform(acts: seq<Act>)
      modifies this`targets, this`addedTimers, this`log
      ensures Model() == Acts(old(Model()), acts)
    {
      for i := 0 to |acts|
        invariant Acts(Model(), acts[i..]) == Acts(old(Model()), acts)
      {
        match acts[i] {
          case AddTimer(tp) => var _ := Add(tp);
          case StopTimer(id) => var _ := Stop(id);
        }
      }
    }

    method CallTarget(id: nat, ghost e: Event, script: Script)
      requires id < |targets|
      modifies this`targets, this`addedTimers, this`log
      ensures Model() == TimerSpec.CallTarget(old(Model()), id, e, script)
    {
      var cb := targets[id].cb;
      targets := targets[id := targets[id].(st := Invalid, cb := false)];
      if cb {
        log := log + [e];
        Perform(script(id));
      }
    }

    // Takes the added timers in: the stopped ones are called off, the others join the running ones.
    method Admit(script: Script)
      requires InBounds(Model())
      modifies this
      ensures Model() == TimerSpec.Admit(old(Model()).(added := []), old(addedTimers), script)
    {
      var timers := addedTimers;
      addedTimers := [];
      for i := 0 to |timers|
        invariant InRange(timers, |targets|) && InRange(runingTimers, |targets|)
        invariant TimerSpec.Admit(Model(), timers[i..], script)
               == TimerSpec.Admit(old(Model()).(added := []), timers, script)
      {
        var id := timers[i];
        ghost var before := Model();
        if targets[id].st == Added {
          targets, runingTimers := targets[id := targets[id].(st := Runing)], Insert(targets, runingTimers, id);
        } else {
          CallTarget(id, Canceled(id), script);
        }
        assert Model() == AdmitOne(before, id, script);
        assert timers[i..][1..] == timers[i + 1..];
      }
    }

    // Calls the running timers that are due; they leave the map together, at the end.
    method Fire(now: int, script: Script)
      requires InRange(runingTimers, |targets|)
      modifies this
      ensures Model() == TimerSpec.Fire(old(Model()), now, script)
    {
      var iter := 0;
      while iter < |runingTimers|
        invariant iter <= |runingTimers| && InRange(runingTimers, |targets|)
        invariant TimerSpec.Fire(Model().(runing := runingTimers[iter..]), now, script)
               == TimerSpec.Fire(old(Model()), now, script)
      {
        var id := runingTimers[iter];
        if targets[id].tp > now {
          break;
        }
        ghost var rest := runingTimers[iter + 1..];
        ghost var e := if targets[id].st == Invalid then Canceled(id) else Fired(id, now);
        assert runingTimers[iter..][1..] == rest;
        CallTargetFrame(Model(), id, e, script, rest);
        CallTarget(id, e, script);
        iter := iter + 1;
      }
      runingTimers := runingTimers[iter..];
    }

    method Update(now: int, script: Script)
      requires Valid()
      modifies this
      ensures Valid() && Model() == TimerSpec.Update(old(Model()), now, script)
    {
      UpdateKeepsInv(Model(), now, script);
      HoldKeepsInv(Model());
      if |addedTimers| > 0 {
        Admit(script);
      }
      if |runingTimers| > 0 {
        Fire(now, script);
      }
    }

    method Clear(script: Script)
      requires Valid()
      modifies this
      ensures Valid() && Model() == TimerSpec.Clear(old(Model()), script)
    {
      ClearKeepsInv(Model(), script);
      var added := addedTimers;
      addedTimers := [];
      for i := 0 to |added|
        invariant InRange(added, |targets|) && InRange(runingTimers, |targets|)
        invariant ClearHeld(Model(), added[i..], script) == ClearHeld(old(Model()).(added := []), added, script)
      {
        assert added[i..][1..] == added[i + 1..];
        CallTarget(added[i], Cleared(added[i]), script);
      }
      var runing := runingTimers;
      runingTimers := [];
      for i := 0 to |runing|
        invariant runingTimers == [] && InRange(runing, |targets|)
        invariant ClearRuning(Model().(runing := runing[i..]), script) == TimerSpec.Clear(old(Model()), script)
      {
        assert runing[i..][1..] == runing[i + 1..];
        CallTargetFrame(Model(), runing[i], Cleared(runing[i]), script, runing[i + 1..]);
        CallTarget(runing[i], Cleared(runing[i]), script);
      }
      assert Model().(runing := runing[|runing|..]) == Model();
    }
  }
}
