/**
 The timers of a manager as values. A timer is named by its place in the order of creation, and its
 callback may add and stop timers: `script(id)` is what the callback of timer `id` does.
 */
module TimerSpec {
  import opened Prelude

  datatype Phase = Invalid | Added | Runing
  // `cb` says that the callback is still there, that is, that it was not called yet.
  datatype Target = Target(tp: int, st: Phase, cb: bool)
  // What a caller sees: a callback called in time, or with `canceled` set by `update` or by `clear`; and a
  // `stop` that returned true.
  datatype Event = Fired(id: nat, now: int) | Canceled(id: nat) | Cleared(id: nat) | Stopped(id: nat)
  datatype Timers = Timers(targets: seq<Target>, added: seq<nat>, runing: seq<nat>, log: seq<Event>)

  datatype Act = AddTimer(tp: int) | StopTimer(id: nat)
  type Script = nat -> seq<Act>

  predicate InRange(l: seq<nat>, n: nat) {
    forall i :: 0 <= i < |l| ==> l[i] < n
  }

  // ---- the operations ----

  function Add(s: Timers, tp: int): Timers {
    Timers(s.targets + [Target(tp, Added, true)], s.added + [|s.targets|], s.runing, s.log)
  }

  predicate CanStop(s: Timers, id: nat) {
    id < |s.targets| && s.targets[id].st != Invalid
  }

  function Stop(s: Timers, id: nat): Timers {
    if CanStop(s, id) then
      s.(targets := s.targets[id := s.targets[id].(st := Invalid)], log := s.log + [Stopped(id)])
    else
      s
  }

  function Acted(s: Timers, act: Act): Timers {
    match act
    case AddTimer(tp) => Add(s, tp)
    case StopTimer(id) => Stop(s, id)
  }

  function Acts(s: Timers, acts: seq<Act>): (t: Timers)
    ensures t.runing == s.runing && |s.targets| <= |t.targets|
    decreases |acts|
  {
    if acts == [] then s else Acts(Acted(s, acts[0]), acts[1..])
  }

  function Uncalled(s: Timers, id: nat): Timers
    requires id < |s.targets|
  {
    s.(targets := s.targets[id := s.targets[id].(st := Invalid, cb := false)])
  }

  function CallTarget(s: Timers, id: nat, ev: Event, script: Script): (t: Timers)
    requires id < |s.targets|
    ensures t.runing == s.runing && |s.targets| <= |t.targets|
  {
    var u := Uncalled(s, id);
    if s.targets[id].cb then Acts(u.(log := s.log + [ev]), script(id)) else u
  }

  // The running timers are in order of time, and a new one comes behind those of the same time.
  function Insert(targets: seq<Target>, r: seq<nat>, id: nat): (l: seq<nat>)
    requires id < |targets| && InRange(r, |targets|)
    ensures InRange(l, |targets|)
  {
    if r == [] || targets[r[|r| - 1]].tp <= targets[id].tp then r + [id]
    else Insert(targets, r[..|r| - 1], id) + [r[|r| - 1]]
  }

  function AdmitOne(s: Timers, id: nat, script: Script): (t: Timers)
    requires id < |s.targets| && InRange(s.runing, |s.targets|)
    ensures |s.targets| <= |t.targets| && InRange(t.runing, |t.targets|)
  {
    if s.targets[id].st == Added then
      s.(targets := s.targets[id := s.targets[id].(st := Runing)], runing := Insert(s.targets, s.runing, id))
    else
      CallTarget(s, id, Canceled(id), script)
  }

  // `held` are the timers that `update` has taken from the added list.
  function Admit(s: Timers, held: seq<nat>, script: Script): (t: Timers)
    requires InRange(held, |s.targets|) && InRange(s.runing, |s.targets|)
    ensures InRange(t.runing, |t.targets|)
    decreases |held|
  {
    if held == [] then s else Admit(AdmitOne(s, held[0], script), held[1..], script)
  }

  function DueEvent(s: Timers, id: nat, now: int): Event
    requires id < |s.targets|
  {
    if s.targets[id].st == Invalid then Canceled(id) else Fired(id, now)
  }

  function Fire(s: Timers, now: int, script: Script): Timers
    requires InRange(s.runing, |s.targets|)
    decreases |s.runing|
  {
    if s.runing == [] || s.targets[s.runing[0]].tp > now then s
    else
      var id := s.runing[0];
      Fire(CallTarget(s.(runing := s.runing[1..]), id, DueEvent(s, id, now), script), now, script)
  }

  function Update(s: Timers, now: int, script: Script): Timers
    requires InRange(s.added, |s.targets|) && InRange(s.runing, |s.targets|)
  {
    Fire(Admit(s.(added := []), s.added, script), now, script)
  }

  function ClearHeld(s: Timers, held: seq<nat>, script: Script): (t: Timers)
    requires InRange(held, |s.targets|)
    ensures t.runing == s.runing && |s.targets| <= |t.targets|
    decreases |held|
  {
    if held == [] then s else ClearHeld(CallTarget(s, held[0], Cleared(held[0]), script), held[1..], script)
  }

  function ClearRuning(s: Timers, script: Script): Timers
    requires InRange(s.runing, |s.targets|)
    decreases |s.runing|
  {
    if s.runing == [] then s
    else
      var id := s.runing[0];
      ClearRuning(CallTarget(s.(runing := s.runing[1..]), id, Cleared(id), script), script)
  }

  function Clear(s: Timers, script: Script): Timers
    requires InRange(s.added, |s.targets|) && InRange(s.runing, |s.targets|)
  {
    ClearRuning(ClearHeld(s.(added := []), s.added, script), script)
  }

  // ---- the invariant ----

  function Occurs(l: seq<nat>, id: nat): nat {
    multiset(l)[id]
  }

  // How often `id` is in one of the containers, `held` among them.
  function Places(s: Timers, held: seq<nat>, id: nat): nat {
    Occurs(s.runing, id) + Occurs(held, id) + Occurs(s.added, id)
  }

  predicate Waiting(s: Timers, id: nat) {
    id < |s.targets| && s.targets[id].cb
  }

  ghost predicate InOnePlace(s: Timers, held: seq<nat>) {
    forall id: nat :: Places(s, held, id) == if Waiting(s, id) then 1 else 0
  }

  predicate Before(targets: seq<Target>, a: nat, b: nat)
    requires a < |targets| && b < |targets|
  {
    targets[a].tp < targets[b].tp || (targets[a].tp == targets[b].tp && a < b)
  }

  predicate InOrder(targets: seq<Target>, r: seq<nat>) {
    InRange(r, |targets|) && forall i, j :: 0 <= i < j < |r| ==> Before(targets, r[i], r[j])
  }

  predicate Below(a: seq<nat>, b: seq<nat>) {
    forall i, j :: 0 <= i < |a| && 0 <= j < |b| ==> a[i] < b[j]
  }

  predicate Ordered(s: Timers, held: seq<nat>) {
    && InOrder(s.targets, s.runing)
    && InRange(held, |s.targets|) && InRange(s.added, |s.targets|)
    && Increasing(held) && Increasing(s.added)
    && Below(s.runing, held) && Below(s.runing, s.added) && Below(held, s.added)
  }

  predicate WasStopped(log: seq<Event>, id: nat) {
    Stopped(id) in log
  }

  predicate PhaseOf(s: Timers, l: seq<nat>, st: Phase)
    requires InRange(l, |s.targets|)
  {
    forall i :: 0 <= i < |l| ==> s.targets[l[i]].st in {Invalid, st}
  }

  predicate Phases(s: Timers, held: seq<nat>)
    requires Ordered(s, held)
  {
    && PhaseOf(s, s.runing, Runing) && PhaseOf(s, held, Added) && PhaseOf(s, s.added, Added)
    && forall id :: 0 <= id < |s.targets| ==>
         (s.targets[id].st != Invalid <==> s.targets[id].cb && !WasStopped(s.log, id))
  }

  predicate CallOf(e: Event, id: nat) {
    !e.Stopped? && e.id == id
  }

  function Calls(log: seq<Event>, id: nat): nat {
    if log == [] then 0 else Calls(log[..|log| - 1], id) + if CallOf(log[|log| - 1], id) then 1 else 0
  }

  predicate Justified(s: Timers, e: Event) {
    && e.id < |s.targets|
    && (e.Fired? ==> s.targets[e.id].tp <= e.now && !WasStopped(s.log, e.id))
    && (e.Canceled? ==> WasStopped(s.log, e.id))
  }

  ghost predicate Logged(s: Timers) {
    && (forall id: nat :: Calls(s.log, id) == if id < |s.targets| && !s.targets[id].cb then 1 else 0)
    && (forall i :: 0 <= i < |s.log| ==> Justified(s, s.log[i]))
  }

  ghost predicate Inv(s: Timers, held: seq<nat>) {
    InOnePlace(s, held) && Ordered(s, held) && Phases(s, held) && Logged(s)
  }

  // ---- each step keeps it ----

  lemma OccursHead(l: seq<nat>, id: nat)
    requires l != []
    ensures Occurs(l, id) == Occurs(l[1..], id) + if l[0] == id then 1 else 0
  {
    assert l == [l[0]] + l[1..];
  }

  lemma AddKeepsPlaces(s: Timers, held: seq<nat>, tp: int)
    requires InOnePlace(s, held)
    ensures InOnePlace(Add(s, tp), held)
  {
    var t := Add(s, tp);
    forall id: nat ensures Places(t, held, id) == if Waiting(t, id) then 1 else 0 {
      assert Places(s, held, id) == if Waiting(s, id) then 1 else 0;
    }
  }

  lemma AddKeepsPhases(s: Timers, held: seq<nat>, tp: int)
    requires Ordered(s, held) && Phases(s, held) && Logged(s)
    ensures Ordered(Add(s, tp), held) && Phases(Add(s, tp), held)
  {
  }

  lemma AddKeepsLogged(s: Timers, tp: int)
    requires Logged(s)
    ensures Logged(Add(s, tp))
  {
  }

  lemma AddKeepsInv(s: Timers, held: seq<nat>, tp: int)
    requires Inv(s, held)
    ensures Inv(Add(s, tp), held)
  {
    AddKeepsPlaces(s, held, tp);
    AddKeepsPhases(s, held, tp);
    AddKeepsLogged(s, tp);
  }

  lemma StopKeepsPlaces(s: Timers, held: seq<nat>, id: nat)
    requires InOnePlace(s, held)
    ensures InOnePlace(Stop(s, id), held)
  {
    var t := Stop(s, id);
    forall i: nat ensures Places(t, held, i) == if Waiting(t, i) then 1 else 0 {
      assert Places(s, held, i) == if Waiting(s, i) then 1 else 0;
    }
  }

  lemma StopKeepsPhases(s: Timers, held: seq<nat>, id: nat)
    requires Ordered(s, held) && Phases(s, held)
    ensures Ordered(Stop(s, id), held) && Phases(Stop(s, id), held)
  {
  }

  lemma StopKeepsLogged(s: Timers, held: seq<nat>, id: nat)
    requires Ordered(s, held) && Phases(s, held) && Logged(s)
    ensures Logged(Stop(s, id))
  {
    if CanStop(s, id) {
      var t := Stop(s, id);
      assert t.log[..|t.log| - 1] == s.log;
      forall i: nat ensures Calls(t.log, i) == if i < |t.targets| && !t.targets[i].cb then 1 else 0 {
        assert Calls(s.log, i) == if i < |s.targets| && !s.targets[i].cb then 1 else 0;
      }
      forall i | 0 <= i < |s.log| ensures Justified(t, s.log[i]) {
        assert Justified(s, s.log[i]);
        if s.log[i].Fired? && s.log[i].id == id {
          CallsIn(s.log, i);
        }
      }
    }
  }

  lemma StopKeepsInv(s: Timers, held: seq<nat>, id: nat)
    requires Inv(s, held)
    ensures Inv(Stop(s, id), held)
  {
    StopKeepsPlaces(s, held, id);
    StopKeepsPhases(s, held, id);
    StopKeepsLogged(s, held, id);
  }

  lemma {:induction false} CallsIn(log: seq<Event>, i: nat)
    requires i < |log| && !log[i].Stopped?
    ensures Calls(log, log[i].id) > 0
  {
    if i < |log| - 1 {
      CallsIn(log[..|log| - 1], i);
    }
  }

  lemma {:induction false} ActsKeepInv(s: Timers, held: seq<nat>, acts: seq<Act>)
    requires Inv(s, held)
    ensures Inv(Acts(s, acts), held)
    decreases |acts|
  {
    if acts != [] {
      match acts[0] {
        case AddTimer(tp) => AddKeepsInv(s, held, tp);
        case StopTimer(id) => StopKeepsInv(s, held, id);
      }
      ActsKeepInv(Acted(s, acts[0]), held, acts[1..]);
    }
  }

  // `id` waits for its call and was taken out of its container just now.
  ghost predicate Taken(s: Timers, held: seq<nat>, id: nat) {
    && Waiting(s, id) && Ordered(s, held) && Phases(s, held) && Logged(s)
    && forall x: nat :: Places(s, held, x) == if Waiting(s, x) && x != id then 1 else 0
  }

  // An event that may be the call of `id` now.
  predicate Callable(s: Timers, id: nat, e: Event) {
    && CallOf(e, id) && id < |s.targets|
    && (e.Fired? ==> s.targets[id].st != Invalid && s.targets[id].tp <= e.now)
    && (e.Canceled? ==> s.targets[id].st == Invalid)
  }

  lemma CallKeepsPhases(s: Timers, held: seq<nat>, id: nat, e: Event)
    requires Taken(s, held, id) && Callable(s, id, e)
    ensures var u := Uncalled(s, id).(log := s.log + [e]); Ordered(u, held) && Phases(u, held)
  {
  }

  lemma CallKeepsLogged(s: Timers, held: seq<nat>, id: nat, e: Event)
    requires Taken(s, held, id) && Callable(s, id, e)
    ensures Logged(Uncalled(s, id).(log := s.log + [e]))
  {
  }

  lemma CallKeepsInv(s: Timers, held: seq<nat>, id: nat, e: Event, script: Script)
    requires Taken(s, held, id) && Callable(s, id, e)
    ensures Inv(CallTarget(s, id, e, script), held)
  {
    var u := Uncalled(s, id).(log := s.log + [e]);
    CallKeepsPhases(s, held, id, e);
    CallKeepsLogged(s, held, id, e);
    forall x: nat ensures Places(u, held, x) == if Waiting(u, x) then 1 else 0 {
      assert Places(s, held, x) == if Waiting(s, x) && x != id then 1 else 0;
    }
    ActsKeepInv(u, held, script(id));
  }

  lemma TakeHeld(s: Timers, held: seq<nat>)
    requires Inv(s, held) && held != []
    ensures Taken(s, held[1..], held[0])
  {
    forall x: nat ensures Places(s, held[1..], x) == if Waiting(s, x) && x != held[0] then 1 else 0 {
      OccursHead(held, x);
      assert Places(s, held, x) == if Waiting(s, x) then 1 else 0;
    }
  }

  lemma TailKeepsOrderAndPhases(s: Timers)
    requires Ordered(s, []) && Phases(s, []) && s.runing != []
    ensures var t := s.(runing := s.runing[1..]); Ordered(t, []) && Phases(t, [])
  {
  }

  lemma RuningIsIrrelevantToLog(s: Timers, r: seq<nat>)
    requires Logged(s)
    ensures Logged(s.(runing := r))
  {
  }

  lemma TakeRuning(s: Timers)
    requires Inv(s, []) && s.runing != []
    ensures Taken(s.(runing := s.runing[1..]), [], s.runing[0])
  {
    var t := s.(runing := s.runing[1..]);
    TailKeepsOrderAndPhases(s);
    RuningIsIrrelevantToLog(s, s.runing[1..]);
    forall x: nat ensures Places(t, [], x) == if Waiting(t, x) && x != s.runing[0] then 1 else 0 {
      OccursHead(s.runing, x);
      assert Places(s, [], x) == if Waiting(s, x) then 1 else 0;
    }
    OccursHead(s.runing, s.runing[0]);
    assert Places(s, [], s.runing[0]) > 0;
  }

  // ---- the whole operations keep it ----

  lemma {:induction false} InsertKeepsAll(targets: seq<Target>, r: seq<nat>, id: nat, p: nat -> bool)
    requires id < |targets| && InRange(r, |targets|)
    requires p(id) && forall i :: 0 <= i < |r| ==> p(r[i])
    ensures forall i :: 0 <= i < |Insert(targets, r, id)| ==> p(Insert(targets, r, id)[i])
  {
    if r != [] && targets[r[|r| - 1]].tp > targets[id].tp {
      InsertKeepsAll(targets, r[..|r| - 1], id, p);
      assert Insert(targets, r, id) == Insert(targets, r[..|r| - 1], id) + [r[|r| - 1]];
    }
  }

  lemma {:induction false} InsertOccurs(targets: seq<Target>, r: seq<nat>, id: nat, x: nat)
    requires id < |targets| && InRange(r, |targets|)
    ensures Occurs(Insert(targets, r, id), x) == Occurs(r, x) + if x == id then 1 else 0
  {
    if r != [] && targets[r[|r| - 1]].tp > targets[id].tp {
      InsertOccurs(targets, r[..|r| - 1], id, x);
      assert r == r[..|r| - 1] + [r[|r| - 1]];
    }
  }

  lemma InsertBelow(targets: seq<Target>, r: seq<nat>, id: nat, l: seq<nat>)
    requires id < |targets| && InRange(r, |targets|) && Below(r, l) && Below([id], l)
    ensures Below(Insert(targets, r, id), l)
  {
  }

  /** The new timer is behind every one of its own time, and the others keep their order. */
  lemma {:induction false} InsertInOrder(targets: seq<Target>, r: seq<nat>, id: nat)
    requires id < |targets| && InOrder(targets, r) && forall i :: 0 <= i < |r| ==> r[i] < id
    ensures InOrder(targets, Insert(targets, r, id))
  {
    if r != [] && targets[r[|r| - 1]].tp > targets[id].tp {
      var last := r[|r| - 1];
      InsertInOrder(targets, r[..|r| - 1], id);
      InsertKeepsAll(targets, r[..|r| - 1], id, (x: nat) => x < |targets| && Before(targets, x, last));
      assert Insert(targets, r, id) == Insert(targets, r[..|r| - 1], id) + [last];
    } else if r != [] {
      forall i | 0 <= i < |r| ensures Before(targets, r[i], id) {
        assert i < |r| - 1 ==> Before(targets, r[i], r[|r| - 1]);
      }
    }
  }

  // The timer that moves from the held list to the running ones.
  function Admitted(s: Timers, id: nat): Timers
    requires id < |s.targets| && InRange(s.runing, |s.targets|)
  {
    s.(targets := s.targets[id := s.targets[id].(st := Runing)], runing := Insert(s.targets, s.runing, id))
  }

  lemma AdmittedKeepsOrder(s: Timers, held: seq<nat>)
    requires Ordered(s, held) && held != []
    ensures Ordered(Admitted(s, held[0]), held[1..])
  {
    var t := Admitted(s, held[0]);
    InsertInOrder(s.targets, s.runing, held[0]);
    assert forall a: nat, b: nat :: a < |s.targets| && b < |s.targets| && Before(s.targets, a, b)
             ==> Before(t.targets, a, b);
    InsertBelow(s.targets, s.runing, held[0], held[1..]);
    InsertBelow(s.targets, s.runing, held[0], s.added);
  }

  lemma AdmittedKeepsPhases(s: Timers, held: seq<nat>)
    requires Ordered(s, held) && Phases(s, held) && held != [] && s.targets[held[0]].st == Added
    ensures Ordered(Admitted(s, held[0]), held[1..]) && Phases(Admitted(s, held[0]), held[1..])
  {
    var t := Admitted(s, held[0]);
    AdmittedKeepsOrder(s, held);
    var p := (x: nat) => x < |t.targets| && t.targets[x].st in {Invalid, Runing};
    InsertKeepsAll(s.targets, s.runing, held[0], p);
    forall i | 0 <= i < |t.runing| ensures t.targets[t.runing[i]].st in {Invalid, Runing} {
      assert p(Insert(s.targets, s.runing, held[0])[i]);
    }
  }

  lemma AdmittedKeepsLogged(s: Timers, id: nat)
    requires Logged(s) && id < |s.targets| && InRange(s.runing, |s.targets|)
    ensures Logged(Admitted(s, id))
  {
  }

  lemma AdmitOneKeepsInv(s: Timers, held: seq<nat>, script: Script)
    requires Inv(s, held) && held != []
    ensures Inv(AdmitOne(s, held[0], script), held[1..])
  {
    if s.targets[held[0]].st == Added {
      AdmittedKeepsPhases(s, held);
      AdmittedKeepsLogged(s, held[0]);
      var t := Admitted(s, held[0]);
      forall x: nat ensures Places(t, held[1..], x) == if Waiting(t, x) then 1 else 0 {
        assert Places(s, held, x) == if Waiting(s, x) then 1 else 0;
        InsertOccurs(s.targets, s.runing, held[0], x);
        OccursHead(held, x);
      }
    } else {
      TakeHeld(s, held);
      CallKeepsInv(s, held[1..], held[0], Canceled(held[0]), script);
    }
  }

  lemma {:induction false} AdmitKeepsInv(s: Timers, held: seq<nat>, script: Script)
    requires Inv(s, held)
    ensures Inv(Admit(s, held, script), [])
    decreases |held|
  {
    if held != [] {
      AdmitOneKeepsInv(s, held, script);
      AdmitKeepsInv(AdmitOne(s, held[0], script), held[1..], script);
    }
  }

  lemma {:induction false} FireKeepsInv(s: Timers, now: int, script: Script)
    requires Inv(s, [])
    ensures Inv(Fire(s, now, script), [])
    decreases |s.runing|
  {
    if s.runing != [] && s.targets[s.runing[0]].tp <= now {
      var id := s.runing[0];
      TakeRuning(s);
      var t := s.(runing := s.runing[1..]);
      CallKeepsInv(t, [], id, DueEvent(s, id, now), script);
      FireKeepsInv(CallTarget(t, id, DueEvent(s, id, now), script), now, script);
    }
  }

  lemma HoldKeepsInv(s: Timers)
    requires Inv(s, [])
    ensures Inv(s.(added := []), s.added)
  {
    var t := s.(added := []);
    forall x: nat ensures Places(t, s.added, x) == if Waiting(t, x) then 1 else 0 {
      assert Places(s, [], x) == if Waiting(s, x) then 1 else 0;
    }
    forall i | 0 <= i < |s.log| ensures Justified(t, s.log[i]) {
      assert Justified(s, s.log[i]);
    }
  }

  lemma UpdateKeepsInv(s: Timers, now: int, script: Script)
    requires Inv(s, [])
    ensures Inv(Update(s, now, script), [])
  {
    HoldKeepsInv(s);
    AdmitKeepsInv(s.(added := []), s.added, script);
    FireKeepsInv(Admit(s.(added := []), s.added, script), now, script);
  }

  lemma {:induction false} ClearHeldKeepsInv(s: Timers, held: seq<nat>, script: Script)
    requires Inv(s, held)
    ensures Inv(ClearHeld(s, held, script), [])
    decreases |held|
  {
    if held != [] {
      TakeHeld(s, held);
      CallKeepsInv(s, held[1..], held[0], Cleared(held[0]), script);
      ClearHeldKeepsInv(CallTarget(s, held[0], Cleared(held[0]), script), held[1..], script);
    }
  }

  lemma {:induction false} ClearRuningKeepsInv(s: Timers, script: Script)
    requires Inv(s, [])
    ensures Inv(ClearRuning(s, script), [])
    decreases |s.runing|
  {
    if s.runing != [] {
      var id := s.runing[0];
      TakeRuning(s);
      CallKeepsInv(s.(runing := s.runing[1..]), [], id, Cleared(id), script);
      ClearRuningKeepsInv(CallTarget(s.(runing := s.runing[1..]), id, Cleared(id), script), script);
    }
  }

  lemma ClearKeepsInv(s: Timers, script: Script)
    requires Inv(s, [])
    ensures Inv(Clear(s, script), [])
  {
    HoldKeepsInv(s);
    ClearHeldKeepsInv(s.(added := []), s.added, script);
    ClearRuningKeepsInv(ClearHeld(s.(added := []), s.added, script), script);
  }

  // ---- runs ----

  datatype Op = Adding(tp: int) | Stopping(id: nat) | Updating(now: int, script: Script) | Clearing(script: Script)

  predicate InBounds(s: Timers) {
    InRange(s.added, |s.targets|) && InRange(s.runing, |s.targets|)
  }

  function Step(s: Timers, op: Op): Timers
    requires InBounds(s)
  {
    match op
    case Adding(tp) => Add(s, tp)
    case Stopping(id) => Stop(s, id)
    case Updating(now, script) => Update(s, now, script)
    case Clearing(script) => Clear(s, script)
  }

  // Operations on a manager whose timers got out of bounds, of which there is none, do nothing.
  function Run(ops: seq<Op>): Timers {
    if ops == [] then Timers([], [], [], [])
    else
      var s := Run(ops[..|ops| - 1]);
      if InBounds(s) then Step(s, ops[|ops| - 1]) else s
  }

  /** The invariant holds after every run, whatever the callbacks do. */
  lemma {:induction false} RunKeepsInv(ops: seq<Op>)
    ensures Inv(Run(ops), [])
  {
    if ops != [] {
      var s := Run(ops[..|ops| - 1]);
      RunKeepsInv(ops[..|ops| - 1]);
      match ops[|ops| - 1] {
        case Adding(tp) => AddKeepsInv(s, [], tp);
        case Stopping(id) => StopKeepsInv(s, [], id);
        case Updating(now, script) => UpdateKeepsInv(s, now, script);
        case Clearing(script) => ClearKeepsInv(s, script);
      }
    }
  }

  // ---- the times that were asked for ----

  function TimesOf(acts: seq<Act>): seq<int> {
    if acts == [] then []
    else (if acts[0].AddTimer? then [acts[0].tp] else []) + TimesOf(acts[1..])
  }

  // What the callbacks that the log calls ask for, in order.
  function Wanted(log: seq<Event>, script: Script): seq<int> {
    if log == [] then []
    else Wanted(log[..|log| - 1], script) + WantedBy(log[|log| - 1], script)
  }

  function WantedBy(e: Event, script: Script): seq<int> {
    if e.Stopped? then [] else TimesOf(script(e.id))
  }

  function Since(before: seq<Event>, after: seq<Event>): seq<Event> {
    if |before| <= |after| then after[|before|..] else []
  }

  /**
   The times asked for in a run, in order: by the operations that add a timer, and by the callbacks that the
   updates and clears of the run have called.
   */
  function Requests(ops: seq<Op>): seq<int> {
    if ops == [] then []
    else
      var earlier := ops[..|ops| - 1];
      Requests(earlier) +
      match ops[|ops| - 1]
      case Adding(tp) => [tp]
      case Stopping(_) => []
      case Updating(_, script) => Wanted(Since(Run(earlier).log, Run(ops).log), script)
      case Clearing(script) => Wanted(Since(Run(earlier).log, Run(ops).log), script)
  }

  function Times(s: Timers): seq<int> {
    seq(|s.targets|, i requires 0 <= i < |s.targets| => s.targets[i].tp)
  }

  // From `s` to `t`, exactly the timers have come that the callbacks called meanwhile asked for.
  ghost predicate Heard(s: Timers, t: Timers, script: Script) {
    s.log <= t.log && Times(t) == Times(s) + Wanted(Since(s.log, t.log), script)
  }

  lemma WantedLast(log: seq<Event>, e: Event, script: Script)
    ensures Wanted(log + [e], script) == Wanted(log, script) + WantedBy(e, script)
  {
    assert (log + [e])[..|log|] == log;
  }

  lemma AppendAssoc<T>(a: seq<T>, b: seq<T>, c: seq<T>)
    ensures a + (b + c) == a + b + c
  {
  }

  lemma {:induction false} WantedOfBoth(a: seq<Event>, b: seq<Event>, script: Script)
    ensures Wanted(a + b, script) == Wanted(a, script) + Wanted(b, script)
    decreases |b|, 0
  {
    if b == [] {
      assert a + b == a;
    } else {
      var c, e := b[..|b| - 1], b[|b| - 1];
      assert b == c + [e];
      WantedOfBothStep(a, c, e, script);
    }
  }

  lemma {:induction false} WantedOfBothStep(a: seq<Event>, c: seq<Event>, e: Event, script: Script)
    ensures Wanted(a + (c + [e]), script) == Wanted(a, script) + Wanted(c + [e], script)
    decreases |c|, 1
  {
    WantedOfBoth(a, c, script);
    AppendAssoc(a, c, [e]);
    WantedLast(a + c, e, script);
    WantedLast(c, e, script);
    AppendAssoc(Wanted(a, script), Wanted(c, script), WantedBy(e, script));
  }

  lemma {:induction false} NothingWanted(log: seq<Event>, script: Script)
    requires forall i :: 0 <= i < |log| ==> log[i].Stopped?
    ensures Wanted(log, script) == []
  {
    if log != [] {
      NothingWanted(log[..|log| - 1], script);
    }
  }

  lemma SinceSplits(a: seq<Event>, b: seq<Event>, c: seq<Event>)
    requires a <= b <= c
    ensures Since(a, c) == Since(a, b) + Since(b, c)
  {
  }

  lemma HeardTrans(s: Timers, u: Timers, t: Timers, script: Script)
    requires Heard(s, u, script) && Heard(u, t, script)
    ensures Heard(s, t, script)
  {
    SinceSplits(s.log, u.log, t.log);
    WantedOfBoth(Since(s.log, u.log), Since(u.log, t.log), script);
    AppendAssoc(Times(s), Wanted(Since(s.log, u.log), script), Wanted(Since(u.log, t.log), script));
  }

  lemma HeardFrame(s: Timers, s': Timers, t: Timers, script: Script)
    requires Heard(s', t, script) && s'.log == s.log && s'.targets == s.targets
    ensures Heard(s, t, script)
  {
  }

  lemma AddHears(s: Timers, tp: int)
    ensures Times(Add(s, tp)) == Times(s) + [tp]
  {
  }

  lemma StopHears(s: Timers, id: nat)
    ensures Times(Stop(s, id)) == Times(s)
  {
  }

  lemma {:induction false} ActsHear(s: Timers, acts: seq<Act>)
    ensures Times(Acts(s, acts)) == Times(s) + TimesOf(acts)
    decreases |acts|
  {
    if acts != [] {
      match acts[0] {
        case AddTimer(tp) => AddHears(s, tp);
        case StopTimer(id) => StopHears(s, id);
      }
      ActsHear(Acted(s, acts[0]), acts[1..]);
    }
  }

  lemma CallHears(s: Timers, id: nat, e: Event, script: Script)
    requires id < |s.targets| && CallOf(e, id)
    ensures Heard(s, CallTarget(s, id, e, script), script)
  {
    assert Times(Uncalled(s, id)) == Times(s);
    if s.targets[id].cb {
      var v := Uncalled(s, id).(log := s.log + [e]);
      assert Times(v) == Times(s);
      ActsHear(v, script(id));
      ActsAreLater(v, script(id));
      ScriptIsWanted(s.log, e, CallTarget(s, id, e, script).log, script);
    }
  }

  lemma ScriptIsWanted(before: seq<Event>, e: Event, after: seq<Event>, script: Script)
    requires before + [e] <= after && !e.Stopped? && forall i :: |before| < i < |after| ==> after[i].Stopped?
    ensures Wanted(Since(before, after), script) == TimesOf(script(e.id))
  {
    var rest := Since(before + [e], after);
    NothingWanted(rest, script);
    WantedOfBoth([e], rest, script);
    WantedLast([], e, script);
    SinceSplits(before, before + [e], after);
    assert [] + [e] == [e] && Since(before, before + [e]) == [e];
  }

  lemma AdmitOneHears(s: Timers, id: nat, script: Script)
    requires id < |s.targets| && InRange(s.runing, |s.targets|)
    ensures Heard(s, AdmitOne(s, id, script), script)
  {
    if s.targets[id].st != Added {
      CallHears(s, id, Canceled(id), script);
    } else {
      assert Times(AdmitOne(s, id, script)) == Times(s);
    }
  }

  lemma {:induction false} AdmitHears(s: Timers, held: seq<nat>, script: Script)
    requires InRange(held, |s.targets|) && InRange(s.runing, |s.targets|)
    ensures Heard(s, Admit(s, held, script), script)
    decreases |held|
  {
    if held != [] {
      var u := AdmitOne(s, held[0], script);
      AdmitOneHears(s, held[0], script);
      AdmitHears(u, held[1..], script);
      HeardTrans(s, u, Admit(u, held[1..], script), script);
    }
  }

  lemma {:induction false} FireHears(s: Timers, now: int, script: Script)
    requires InRange(s.runing, |s.targets|)
    ensures Heard(s, Fire(s, now, script), script)
    decreases |s.runing|
  {
    if s.runing != [] && s.targets[s.runing[0]].tp <= now {
      var u := s.(runing := s.runing[1..]);
      var v := CallTarget(u, s.runing[0], DueEvent(s, s.runing[0], now), script);
      CallHears(u, s.runing[0], DueEvent(s, s.runing[0], now), script);
      FireHears(v, now, script);
      HeardTrans(u, v, Fire(v, now, script), script);
      HeardFrame(s, u, Fire(v, now, script), script);
    }
  }

  lemma UpdateHears(s: Timers, now: int, script: Script)
    requires InBounds(s)
    ensures Heard(s, Update(s, now, script), script)
  {
    var u := s.(added := []);
    var v := Admit(u, s.added, script);
    AdmitHears(u, s.added, script);
    FireHears(v, now, script);
    HeardTrans(u, v, Fire(v, now, script), script);
    HeardFrame(s, u, Fire(v, now, script), script);
  }

  lemma {:induction false} ClearHeldHears(s: Timers, held: seq<nat>, script: Script)
    requires InRange(held, |s.targets|)
    ensures Heard(s, ClearHeld(s, held, script), script)
    decreases |held|
  {
    if held != [] {
      var u := CallTarget(s, held[0], Cleared(held[0]), script);
      CallHears(s, held[0], Cleared(held[0]), script);
      ClearHeldHears(u, held[1..], script);
      HeardTrans(s, u, ClearHeld(u, held[1..], script), script);
    }
  }

  lemma {:induction false} ClearRuningHears(s: Timers, script: Script)
    requires InRange(s.runing, |s.targets|)
    ensures Heard(s, ClearRuning(s, script), script)
    decreases |s.runing|
  {
    if s.runing != [] {
      var u := s.(runing := s.runing[1..]);
      var v := CallTarget(u, s.runing[0], Cleared(s.runing[0]), script);
      CallHears(u, s.runing[0], Cleared(s.runing[0]), script);
      ClearRuningHears(v, script);
      HeardTrans(u, v, ClearRuning(v, script), script);
      HeardFrame(s, u, ClearRuning(v, script), script);
    }
  }

  lemma ClearHears(s: Timers, script: Script)
    requires InBounds(s)
    ensures Heard(s, Clear(s, script), script)
  {
    var u := s.(added := []);
    var v := ClearHeld(u, s.added, script);
    ClearHeldHears(u, s.added, script);
    ClearRuningHears(v, script);
    HeardTrans(u, v, ClearRuning(v, script), script);
    HeardFrame(s, u, ClearRuning(v, script), script);
  }

  /** Every timer of every run waits for the time that was asked for when it was made, and for no other. */
  lemma {:induction false} TimersAreAsRequested(ops: seq<Op>)
    ensures |Requests(ops)| == |Run(ops).targets|
    ensures forall id :: 0 <= id < |Run(ops).targets| ==> Run(ops).targets[id].tp == Requests(ops)[id]
  {
    TimesAreRequests(ops);
    var s := Run(ops);
    assert forall id :: 0 <= id < |s.targets| ==> Times(s)[id] == s.targets[id].tp;
  }

  lemma {:induction false} TimesAreRequests(ops: seq<Op>)
    ensures Times(Run(ops)) == Requests(ops)
  {
    if ops != [] {
      var earlier := ops[..|ops| - 1];
      TimesAreRequests(earlier);
      RunKeepsInv(earlier);
      StepHears(Run(earlier), ops[|ops| - 1]);
    }
  }

  lemma StepHears(s: Timers, op: Op)
    requires InBounds(s)
    ensures var t := Step(s, op);
            match op
            case Adding(tp) => Times(t) == Times(s) + [tp]
            case Stopping(_) => Times(t) == Times(s)
            case Updating(_, script) => Heard(s, t, script)
            case Clearing(script) => Heard(s, t, script)
  {
    match op
    case Adding(tp) => AddHears(s, tp);
    case Stopping(id) => StopHears(s, id);
    case Updating(now, script) => UpdateHears(s, now, script);
    case Clearing(script) => ClearHears(s, script);
  }

  // ---- calls over runs ----

  /**
   Conservation: a timer that was added is in exactly one container and uncalled, or was called exactly
   once and is in none. So no callback is called twice, and none is lost.
   */
  lemma CalledOnceOrInOnePlace(ops: seq<Op>, id: nat)
    ensures var s := Run(ops);
            Places(s, [], id) + Calls(s.log, id) == if id < |Requests(ops)| then 1 else 0
  {
    TimersAreAsRequested(ops);
    RunKeepsInv(ops);
    assert Places(Run(ops), [], id) == if Waiting(Run(ops), id) then 1 else 0;
    assert Calls(Run(ops).log, id) <= 1;
  }

  /**
   A call without `canceled` never comes before the time that was asked for, and never for a timer for which
   some `stop` returned true.
   */
  lemma FiredInTimeAndNotStopped(ops: seq<Op>, i: nat)
    requires i < |Run(ops).log|
    ensures var s := Run(ops); var e := s.log[i];
            && e.id < |Requests(ops)|
            && (e.Fired? ==> Requests(ops)[e.id] <= e.now && forall j :: 0 <= j < |s.log| ==> s.log[j] != Stopped(e.id))
            && (e.Canceled? ==> exists j :: 0 <= j < |s.log| && s.log[j] == Stopped(e.id))
  {
    RunKeepsInv(ops);
    TimersAreAsRequested(ops);
    assert Justified(Run(ops), Run(ops).log[i]);
  }

  /** `stop` returns true exactly for a timer that was neither called nor stopped before. */
  lemma StopSucceedsIff(ops: seq<Op>, id: nat)
    ensures var s := Run(ops);
            CanStop(s, id) <==> id < |Requests(ops)| && Calls(s.log, id) == 0 && Stopped(id) !in s.log
  {
    RunKeepsInv(ops);
    TimersAreAsRequested(ops);
    assert Calls(Run(ops).log, id) <= 1;
  }

  // ---- what one update does ----

  // Nothing is undone: times are kept, the log grows, and what joins the added list is new.
  ghost predicate Later(s: Timers, t: Timers) {
    && |s.targets| <= |t.targets|
    && (forall id :: 0 <= id < |s.targets| ==> t.targets[id].tp == s.targets[id].tp)
    && s.log <= t.log && s.added <= t.added
    && forall i :: |s.added| <= i < |t.added| ==> t.added[i] >= |s.targets|
  }

  lemma {:induction false} ActsAreLater(s: Timers, acts: seq<Act>)
    ensures Later(s, Acts(s, acts))
    ensures forall i :: |s.log| <= i < |Acts(s, acts).log| ==> Acts(s, acts).log[i].Stopped?
    decreases |acts|
  {
    if acts != [] {
      ActsAreLater(Acted(s, acts[0]), acts[1..]);
    }
  }

  lemma CallIsLater(s: Timers, id: nat, e: Event, script: Script)
    requires id < |s.targets|
    ensures var t := CallTarget(s, id, e, script);
            Later(s, t) && forall i :: |s.log| <= i < |t.log| ==> t.log[i].Stopped? || (i == |s.log| && t.log[i] == e)
  {
    ActsAreLater(Uncalled(s, id).(log := s.log + [e]), script(id));
  }

  lemma {:induction false} AdmitIsLater(s: Timers, held: seq<nat>, script: Script)
    requires InRange(held, |s.targets|) && InRange(s.runing, |s.targets|)
    ensures var t := Admit(s, held, script);
            Later(s, t) && forall i :: |s.log| <= i < |t.log| ==> !t.log[i].Fired? && !t.log[i].Cleared?
    decreases |held|
  {
    if held != [] {
      CallIsLater(s, held[0], Canceled(held[0]), script);
      AdmitIsLater(AdmitOne(s, held[0], script), held[1..], script);
    }
  }

  predicate AllAfter(s: Timers, now: int)
    requires InRange(s.runing, |s.targets|)
  {
    forall i :: 0 <= i < |s.runing| ==> s.targets[s.runing[i]].tp > now
  }

  // From place `n` on, the calls in time are of the running timers, at `now`, and in their order.
  ghost predicate FiresInOrder(s: Timers, log: seq<Event>, n: nat, now: int)
    requires InRange(s.runing, |s.targets|)
  {
    && (forall i :: n <= i < |log| ==> !log[i].Cleared?)
    && (forall i :: n <= i < |log| && log[i].Fired? ==>
          log[i].now == now && exists k :: 0 <= k < |s.runing| && s.runing[k] == log[i].id)
    && forall i, j :: n <= i < j < |log| && log[i].Fired? && log[j].Fired? ==>
         log[i].id < |s.targets| && log[j].id < |s.targets| && Before(s.targets, log[i].id, log[j].id)
  }

  lemma LaterTrans(s: Timers, r: seq<nat>, v: Timers, t: Timers)
    requires Later(s.(runing := r), v) && Later(v, t)
    ensures Later(s, t)
  {
  }

  lemma {:induction false} FireIsLater(s: Timers, now: int, script: Script)
    requires InRange(s.runing, |s.targets|)
    ensures Later(s, Fire(s, now, script))
    decreases |s.runing|
  {
    if s.runing != [] && s.targets[s.runing[0]].tp <= now {
      var u := s.(runing := s.runing[1..]);
      var e := DueEvent(s, s.runing[0], now);
      var v := CallTarget(u, s.runing[0], e, script);
      CallIsLater(u, s.runing[0], e, script);
      FireIsLater(v, now, script);
      LaterTrans(s, u.runing, v, Fire(v, now, script));
    }
  }

  lemma {:induction false} FireLeavesNoneDue(s: Timers, now: int, script: Script)
    requires Inv(s, [])
    ensures Inv(Fire(s, now, script), []) && AllAfter(Fire(s, now, script), now)
    decreases |s.runing|
  {
    if s.runing == [] {
    } else if s.targets[s.runing[0]].tp > now {
      forall i | 0 <= i < |s.runing| ensures s.targets[s.runing[i]].tp > now {
        assert i > 0 ==> Before(s.targets, s.runing[0], s.runing[i]);
      }
    } else {
      var id := s.runing[0];
      var u := s.(runing := s.runing[1..]);
      TakeRuning(s);
      CallKeepsInv(u, [], id, DueEvent(s, id, now), script);
      FireLeavesNoneDue(CallTarget(u, id, DueEvent(s, id, now), script), now, script);
    }
  }

  lemma {:induction false} FireIsInOrder(s: Timers, now: int, script: Script)
    requires Inv(s, [])
    ensures FiresInOrder(s, Fire(s, now, script).log, |s.log|, now)
    decreases |s.runing|
  {
    if s.runing != [] && s.targets[s.runing[0]].tp <= now {
      var id := s.runing[0];
      var u := s.(runing := s.runing[1..]);
      var e := DueEvent(s, id, now);
      var v := CallTarget(u, id, e, script);
      TakeRuning(s);
      CallKeepsInv(u, [], id, e, script);
      CallIsLater(u, id, e, script);
      FireIsInOrder(v, now, script);
      FireIsLater(v, now, script);
      FireStep(s, v, Fire(v, now, script).log, now);
    }
  }

  lemma FireStep(s: Timers, v: Timers, log: seq<Event>, now: int)
    requires InOrder(s.targets, s.runing) && s.runing != [] && v.runing == s.runing[1..]
    requires Later(s.(runing := s.runing[1..]), v) && v.log <= log && InRange(v.runing, |v.targets|)
    requires FiresInOrder(v, log, |v.log|, now)
    requires forall i :: |s.log| <= i < |v.log| ==>
               v.log[i].Stopped? || (i == |s.log| && v.log[i] in {Canceled(s.runing[0]), Fired(s.runing[0], now)})
    ensures FiresInOrder(s, log, |s.log|, now)
  {
  }

  /**
   An update at any point of any run calls everything that is due: a timer known before it whose time has
   come is called by its end, and the running timers left are all later than `now`. The calls that are not
   canceled come in the order of time, those of one time in the order in which the timers were added.
   */
  lemma UpdateCallsWhatIsDueInOrder(ops: seq<Op>, now: int, script: Script)
    ensures var s := Run(ops); var t := Run(ops + [Updating(now, script)]);
            && InRange(t.runing, |t.targets|) && AllAfter(t, now)
            && Later(s.(added := []), t)
            && (forall id :: 0 <= id < |Requests(ops)| && Requests(ops)[id] <= now ==> Calls(t.log, id) == 1)
            && (forall i, j :: |s.log| <= i < j < |t.log| && t.log[i].Fired? && t.log[j].Fired? ==>
                  Sooner(Requests(ops + [Updating(now, script)]), t.log[i].id, t.log[j].id))
  {
    var s := Run(ops);
    RunKeepsInv(ops);
    TimersAreAsRequested(ops);
    TimersAreAsRequested(ops + [Updating(now, script)]);
    assert (ops + [Updating(now, script)])[..|ops|] == ops;
    UpdateCallsWhatIsDue(s, now, script);
    UpdateCallsInOrder(s, now, script);
  }

  // Timer `a` was to come before `b`.
  predicate Sooner(requests: seq<int>, a: nat, b: nat) {
    && a < |requests| && b < |requests|
    && (requests[a] < requests[b] || (requests[a] == requests[b] && a < b))
  }

  lemma UpdateCallsWhatIsDue(s: Timers, now: int, script: Script)
    requires Inv(s, [])
    ensures var t := Update(s, now, script);
            && Inv(t, []) && AllAfter(t, now) && Later(s.(added := []), t)
            && forall id :: 0 <= id < |s.targets| && s.targets[id].tp <= now ==> Calls(t.log, id) == 1
  {
    var u := s.(added := []);
    HoldKeepsInv(s);
    AdmitKeepsInv(u, s.added, script);
    AdmitIsLater(u, s.added, script);
    var m := Admit(u, s.added, script);
    FireLeavesNoneDue(m, now, script);
    FireIsLater(m, now, script);
    LaterTrans(u, u.runing, m, Fire(m, now, script));
    forall id | 0 <= id < |s.targets| && s.targets[id].tp <= now ensures Calls(Fire(m, now, script).log, id) == 1 {
      DueIsCalled(u, Fire(m, now, script), id, now);
    }
  }

  lemma UpdateCallsInOrder(s: Timers, now: int, script: Script)
    requires Inv(s, [])
    ensures var t := Update(s, now, script);
            forall i :: |s.log| <= i < |t.log| ==> !t.log[i].Cleared? && (t.log[i].Fired? ==> t.log[i].now == now)
    ensures var t := Update(s, now, script);
            forall i, j :: |s.log| <= i < j < |t.log| && t.log[i].Fired? && t.log[j].Fired? ==>
              && t.log[i].id < |t.targets| && t.log[j].id < |t.targets|
              && Before(t.targets, t.log[i].id, t.log[j].id)
  {
    var u := s.(added := []);
    HoldKeepsInv(s);
    AdmitKeepsInv(u, s.added, script);
    AdmitIsLater(u, s.added, script);
    var m := Admit(u, s.added, script);
    FireIsInOrder(m, now, script);
    FireIsLater(m, now, script);
    var t := Fire(m, now, script);
    forall i | |s.log| <= i < |t.log| ensures !t.log[i].Cleared? && (t.log[i].Fired? ==> t.log[i].now == now) {
      assert i < |m.log| ==> t.log[i] == m.log[i];
    }
    forall i, j | |s.log| <= i < j < |t.log| && t.log[i].Fired? && t.log[j].Fired?
      ensures t.log[i].id < |t.targets| && t.log[j].id < |t.targets| && Before(t.targets, t.log[i].id, t.log[j].id)
    {
      assert forall q :: |s.log| <= q < |m.log| ==> t.log[q] == m.log[q];
    }
  }

  lemma DueIsCalled(s: Timers, t: Timers, id: nat, now: int)
    requires Inv(t, []) && Later(s, t) && s.added == [] && AllAfter(t, now)
    requires id < |s.targets| && s.targets[id].tp <= now
    ensures Calls(t.log, id) == 1
  {
    assert Places(t, [], id) == if Waiting(t, id) then 1 else 0;
    assert Calls(t.log, id) == if t.targets[id].cb then 0 else 1;
    assert id !in t.runing && id !in t.added;
  }

  lemma {:induction false} CallFound(log: seq<Event>, id: nat) returns (i: nat)
    requires Calls(log, id) > 0
    ensures i < |log| && CallOf(log[i], id)
  {
    i := |log| - 1;
    if !CallOf(log[i], id) {
      i := CallFound(log[..|log| - 1], id);
    }
  }

  /** For a timer nobody stopped, the update calls it if and only if it is due; and such a call is not canceled. */
  lemma {:induction false} UpdateCallsIffDue(ops: seq<Op>, now: int, script: Script, id: nat)
    requires id < |Requests(ops)| && Calls(Run(ops).log, id) == 0
    requires Stopped(id) !in Run(ops + [Updating(now, script)]).log
    ensures var s := Run(ops); var t := Run(ops + [Updating(now, script)]);
            && (Calls(t.log, id) == 1 <==> Requests(ops)[id] <= now)
            && (Calls(t.log, id) == 1 ==> Fired(id, now) in t.log)
  {
    var s := Run(ops);
    var t := Run(ops + [Updating(now, script)]);
    UpdateCallsWhatIsDueInOrder(ops, now, script);
    RunKeepsInv(ops);
    TimersAreAsRequested(ops);
    TimersAreAsRequested(ops + [Updating(now, script)]);
    assert (ops + [Updating(now, script)])[..|ops|] == ops;
    UpdateCallsInOrder(s, now, script);
    if Calls(t.log, id) > 0 {
      var i := CallFound(t.log, id);
      if i < |s.log| {
        CallsIn(s.log, i);
      }
      FiredInTimeAndNotStopped(ops + [Updating(now, script)], i);
      assert t.log[i] == Fired(id, now);
    }
  }

  // ---- what a stop and a clear do ----

  lemma {:induction false} ClearHeldIsLater(s: Timers, held: seq<nat>, script: Script)
    requires InRange(held, |s.targets|)
    ensures var t := ClearHeld(s, held, script);
            Later(s, t) && forall i :: |s.log| <= i < |t.log| ==> t.log[i].Stopped? || t.log[i].Cleared?
    decreases |held|
  {
    if held != [] {
      CallIsLater(s, held[0], Cleared(held[0]), script);
      ClearHeldIsLater(CallTarget(s, held[0], Cleared(held[0]), script), held[1..], script);
    }
  }

  lemma {:induction false} ClearRuningIsLater(s: Timers, script: Script)
    requires InRange(s.runing, |s.targets|)
    ensures var t := ClearRuning(s, script);
            && Later(s, t) && t.runing == []
            && forall i :: |s.log| <= i < |t.log| ==> t.log[i].Stopped? || t.log[i].Cleared?
    decreases |s.runing|
  {
    if s.runing != [] {
      var u := s.(runing := s.runing[1..]);
      CallIsLater(u, s.runing[0], Cleared(s.runing[0]), script);
      ClearRuningIsLater(CallTarget(u, s.runing[0], Cleared(s.runing[0]), script), script);
    }
  }

  lemma ClearIsLater(s: Timers, script: Script)
    requires InBounds(s)
    ensures var t := Clear(s, script);
            && Later(s.(added := []), t) && t.runing == []
            && forall i :: |s.log| <= i < |t.log| ==> t.log[i].Stopped? || t.log[i].Cleared?
  {
    var u := s.(added := []);
    var v := ClearHeld(u, s.added, script);
    ClearHeldIsLater(u, s.added, script);
    ClearRuningIsLater(v, script);
    assert forall i :: |u.log| <= i < |v.log| ==> Clear(s, script).log[i] == v.log[i];
  }

  /**
   A clear at any point of any run leaves in the manager only timers that its callbacks have added. Each timer
   known before has been called exactly once by then, and what it calls itself is told to be canceled.
   */
  lemma ClearCallsAll(ops: seq<Op>, script: Script)
    ensures var s := Run(ops); var t := Run(ops + [Clearing(script)]);
            && t.runing == [] && (forall i :: 0 <= i < |t.added| ==> t.added[i] >= |Requests(ops)|)
            && (forall id :: 0 <= id < |Requests(ops)| ==> Calls(t.log, id) == 1)
            && s.log <= t.log && forall i :: |s.log| <= i < |t.log| ==> t.log[i].Stopped? || t.log[i].Cleared?
  {
    var s := Run(ops);
    var t := Run(ops + [Clearing(script)]);
    RunKeepsInv(ops);
    TimersAreAsRequested(ops);
    assert (ops + [Clearing(script)])[..|ops|] == ops;
    ClearIsLater(s, script);
    ClearKeepsInv(s, script);
    forall id | 0 <= id < |s.targets| ensures Calls(t.log, id) == 1 {
      assert Places(t, [], id) == if Waiting(t, id) then 1 else 0;
      assert id !in t.added;
    }
  }

  lemma StepIsLater(s: Timers, op: Op)
    requires InBounds(s)
    ensures s.log <= Step(s, op).log
  {
    match op
    case Adding(_) =>
    case Stopping(_) =>
    case Updating(now, script) => UpdateHears(s, now, script);
    case Clearing(script) => ClearHears(s, script);
  }

  /** What has happened in a run is not undone by what follows. */
  lemma {:induction false} RunIsLater(ops: seq<Op>, more: seq<Op>)
    ensures Run(ops).log <= Run(ops + more).log
  {
    if more == [] {
      assert ops + more == ops;
    } else {
      var n := |more| - 1;
      RunIsLater(ops, more[..n]);
      assert (ops + more)[..|ops + more| - 1] == ops + more[..n];
      RunKeepsInv(ops + more[..n]);
      StepIsLater(Run(ops + more[..n]), more[n]);
    }
  }

  /** A timer that is stopped while it waits is never called in time, in whatever run follows. */
  lemma {:induction false} StopTakesEffect(ops: seq<Op>, id: nat, more: seq<Op>, now: int)
    requires id < |Requests(ops)| && Calls(Run(ops).log, id) == 0
    ensures var t := Run(ops + [Stopping(id)] + more);
            Stopped(id) in t.log && Fired(id, now) !in t.log
  {
    var first := ops + [Stopping(id)];
    StopIsLogged(ops, id);
    RunIsLater(first, more);
    StoppedIsNotFired(first + more, id, now);
  }

  lemma StopIsLogged(ops: seq<Op>, id: nat)
    requires id < |Requests(ops)| && Calls(Run(ops).log, id) == 0
    ensures WasStopped(Run(ops + [Stopping(id)]).log, id)
  {
    assert (ops + [Stopping(id)])[..|ops|] == ops;
    StopSucceedsIff(ops, id);
    RunKeepsInv(ops);
    StopLogs(Run(ops), id);
  }

  lemma StopLogs(s: Timers, id: nat)
    ensures WasStopped(Stop(s, id).log, id) <==> CanStop(s, id) || WasStopped(s.log, id)
  {
  }

  lemma StoppedIsNotFired(ops: seq<Op>, id: nat, now: int)
    requires WasStopped(Run(ops).log, id)
    ensures Fired(id, now) !in Run(ops).log
  {
    if Fired(id, now) in Run(ops).log {
      var i :| 0 <= i < |Run(ops).log| && Run(ops).log[i] == Fired(id, now);
      FiredInTimeAndNotStopped(ops, i);
    }
  }

  /** The same for a stop by a callback, in the middle of an update or a clear. */
  lemma {:induction false} CallbackStopTakesEffect(s: Timers, held: seq<nat>, acts: seq<Act>, id: nat)
    requires Inv(s, held) && id < |s.targets| && StopTimer(id) in acts
    requires s.targets[id].cb
    ensures WasStopped(Acts(s, acts).log, id)
    decreases |acts|
  {
    if acts[0] == StopTimer(id) {
      WaitingStopIsLogged(s, held, id);
      StoppedStays(Stop(s, id), acts[1..], id);
    } else {
      ActedKeepsInv(s, held, acts[0], id);
      CallbackStopTakesEffect(Acted(s, acts[0]), held, acts[1..], id);
    }
  }

  lemma WaitingStopIsLogged(s: Timers, held: seq<nat>, id: nat)
    requires Inv(s, held) && id < |s.targets| && s.targets[id].cb
    ensures WasStopped(Stop(s, id).log, id)
  {
    StopLogs(s, id);
  }

  lemma StoppedStays(s: Timers, acts: seq<Act>, id: nat)
    requires WasStopped(s.log, id)
    ensures WasStopped(Acts(s, acts).log, id)
  {
    ActsAreLater(s, acts);
  }

  lemma ActedKeepsInv(s: Timers, held: seq<nat>, act: Act, id: nat)
    requires Inv(s, held) && id < |s.targets|
    ensures Inv(Acted(s, act), held)
    ensures id < |Acted(s, act).targets| && Acted(s, act).targets[id].cb == s.targets[id].cb
  {
    match act
    case AddTimer(tp) => AddKeepsInv(s, held, tp);
    case StopTimer(other) => StopKeepsInv(s, held, other);
  }
}
