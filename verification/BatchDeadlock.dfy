/**
 Any number of actors, each locking its own batch of the same mutexes with the try-and-back-off
 algorithm, one lock operation per step. An actor that has its batch may release it lock by lock.
 A blocking lock of a mutex that another actor owns joins the mutex's queue; the unlock that frees the
 mutex hands it to the first of the queue, whose actor then goes on as the owner.
 */
module BatchDeadlock {
  import opened Prelude
  import opened BatchLock

  // Where an actor stands. `h` is the hard lock, `f` the index whose `try_lock` failed.
  datatype Pc =
    | Start
    | Single
    | Hard(h: nat)                            // blocking lock of h
    | First(h: nat, n: nat)                   // trying [0, h), next n
    | Second(h: nat, n: nat)                  // trying (h, size), next n
    | InnerBack(h: nat, k: nat, f: nat)       // giving back the failed range, next k
    | OuterBack(h: nat, k: nat, f: nat)       // giving back through h, next k
    | Pause(f: nat)
    | Pair(i: nat)                            // blocking lock of i, out of two
    | PairTry(i: nat)
    | PairBack(i: nat)
    | PairPause(i: nat)
    | Finished(rest: multiset<Lock>)          // has the batch; `rest` is not yet released

  datatype Actor = Actor(batch: seq<Lock>, pc: Pc)

  datatype Own = Own(actor: nat, count: nat)

  // A mutex without an entry is free. `waits` are the suspended actors in the order of their suspension;
  // the queue of one mutex is the part that waits for it.
  datatype Sys = Sys(actors: seq<Actor>, own: map<Lock, Own>, waits: seq<nat>)

  datatype Step = Act(a: nat) | Release(a: nat, l: Lock)

  function Count(own: map<Lock, Own>, l: Lock, a: nat): nat {
    if l in own && own[l].actor == a then own[l].count else 0
  }

  predicate Lockable(own: map<Lock, Own>, l: Lock, a: nat) {
    l !in own || own[l].actor == a
  }

  function Acquire(own: map<Lock, Own>, l: Lock, a: nat): map<Lock, Own> {
    own[l := Own(a, Count(own, l, a) + 1)]
  }

  function Relinquish(own: map<Lock, Own>, l: Lock, a: nat): map<Lock, Own> {
    if l !in own || own[l].actor != a then own
    else if own[l].count <= 1 then own - {l}
    else own[l := Own(a, own[l].count - 1)]
  }

  // What the actor at `pc` does next with the mutexes.
  datatype Op = Nothing | Block(l: Lock) | Try(l: Lock) | Unlock(l: Lock)

  predicate WellFormed(b: seq<Lock>, pc: Pc) {
    match pc
    case Start => true
    case Single => |b| == 1
    case Hard(h) => |b| >= 3 && h < |b|
    case First(h, n) => |b| >= 3 && n <= h < |b|
    case Second(h, n) => |b| >= 3 && h < n <= |b|
    case InnerBack(h, k, f) => |b| >= 3 && h < |b| && f < |b| && f != h && k <= f && (f > h ==> h < k)
    case OuterBack(h, k, f) => |b| >= 3 && h < |b| && f < |b| && k <= h + 1
    case Pause(f) => |b| >= 3 && f < |b|
    case Pair(i) => |b| == 2 && i < 2
    case PairTry(i) => |b| == 2 && i < 2
    case PairBack(i) => |b| == 2 && i < 2
    case PairPause(i) => |b| == 2 && i < 2
    case Finished(_) => true
  }

  function OpAt(b: seq<Lock>, pc: Pc): Op
    requires WellFormed(b, pc)
  {
    match pc
    case Single => Block(b[0])
    case Hard(h) => Block(b[h])
    case First(h, n) => if n < h then Try(b[n]) else Nothing
    case Second(h, n) => if n < |b| then Try(b[n]) else Nothing
    case InnerBack(h, k, f) => if k < f then Unlock(b[k]) else Nothing
    case OuterBack(h, k, f) => if k <= h then Unlock(b[k]) else Nothing
    case Pair(i) => Block(b[i])
    case PairTry(i) => Try(b[1 - i])
    case PairBack(i) => Unlock(b[i])
    case _ => Nothing
  }

  // Where the actor goes when its operation succeeds, or is nothing.
  function OnSuccess(b: seq<Lock>, pc: Pc): Pc
    requires WellFormed(b, pc)
  {
    match pc
    case Start =>
      if |b| == 0 then Finished(multiset{}) else if |b| == 1 then Single else if |b| == 2 then Pair(0) else Hard(0)
    case Single => Finished(multiset(b))
    case Hard(h) => First(h, 0)
    case First(h, n) => if n < h then First(h, n + 1) else Second(h, h + 1)
    case Second(h, n) => if n < |b| then Second(h, n + 1) else Finished(multiset(b))
    case InnerBack(h, k, f) => if k < f then InnerBack(h, k + 1, f) else OuterBack(h, if f < h then h else 0, f)
    case OuterBack(h, k, f) => if k <= h then OuterBack(h, k + 1, f) else Pause(f)
    case Pause(f) => Hard(f)
    case Pair(i) => PairTry(i)
    case PairTry(i) => Finished(multiset(b))
    case PairBack(i) => PairPause(i)
    case PairPause(i) => Pair(1 - i)
    case Finished(_) => pc
  }

  // Where the actor goes when its `try_lock` is refused.
  function OnRefusal(pc: Pc): Pc {
    match pc
    case First(h, n) => InnerBack(h, 0, n)
    case Second(h, n) => InnerBack(h, h + 1, n)
    case PairTry(i) => PairBack(i)
    case _ => pc
  }

  function ActorStep(actor: Actor, a: nat, own: map<Lock, Own>): (Pc, map<Lock, Own>)
    requires WellFormed(actor.batch, actor.pc)
  {
    var next := OnSuccess(actor.batch, actor.pc);
    match OpAt(actor.batch, actor.pc)
    case Nothing => (next, own)
    case Block(l) => if Lockable(own, l, a) then (next, Acquire(own, l, a)) else (actor.pc, own)
    case Try(l) => if Lockable(own, l, a) then (next, Acquire(own, l, a)) else (OnRefusal(actor.pc), own)
    case Unlock(l) => (next, Relinquish(own, l, a))
  }

  predicate IsWellFormed(actor: Actor) {
    WellFormed(actor.batch, actor.pc)
  }

  // Actor `a` takes the lock operation at its position.
  function Advance(s: Sys, a: nat): Sys
    requires a < |s.actors| && IsWellFormed(s.actors[a])
  {
    var (pc, own) := ActorStep(s.actors[a], a, s.own);
    s.(actors := s.actors[a := s.actors[a].(pc := pc)], own := own)
  }

  predicate WaitsFor(actors: seq<Actor>, w: nat, l: Lock) {
    w < |actors| && IsWellFormed(actors[w]) && OpAt(actors[w].batch, actors[w].pc) == Block(l)
  }

  // The position of the first of `waits` that waits for `l`.
  function FirstFor(actors: seq<Actor>, waits: seq<nat>, l: Lock): (i: nat)
    ensures i <= |waits|
    ensures i < |waits| ==> WaitsFor(actors, waits[i], l)
    ensures forall j :: 0 <= j < i ==> !WaitsFor(actors, waits[j], l)
  {
    if waits == [] || WaitsFor(actors, waits[0], l) then 0 else 1 + FirstFor(actors, waits[1..], l)
  }

  // The end of an unlock: if it freed the mutex, the first waiter becomes its owner.
  function HandOver(s: Sys, l: Lock): Sys {
    var i := FirstFor(s.actors, s.waits, l);
    if l in s.own || i == |s.waits| then s
    else Advance(s.(waits := s.waits[..i] + s.waits[i + 1..]), s.waits[i])
  }

  // A step that is not possible leaves the system as it is.
  function Next(s: Sys, step: Step): (s': Sys)
    ensures |s'.actors| == |s.actors|
  {
    if step.a >= |s.actors| || step.a in s.waits || !IsWellFormed(s.actors[step.a]) then s
    else
      var actor := s.actors[step.a];
      match step
      case Act(a) =>
        var op := OpAt(actor.batch, actor.pc);
        if op.Block? && !Lockable(s.own, op.l, a) then s.(waits := s.waits + [a])
        else if op.Unlock? then HandOver(Advance(s, a), op.l)
        else Advance(s, a)
      case Release(a, l) =>
        if actor.pc.Finished? && l in actor.pc.rest then HandOver(Released(s, a, l), l) else s
  }

  function Released(s: Sys, a: nat, l: Lock): Sys
    requires a < |s.actors| && s.actors[a].pc.Finished?
  {
    var actor := s.actors[a];
    s.(actors := s.actors[a := actor.(pc := Finished(actor.pc.rest - multiset{l}))], own := Relinquish(s.own, l, a))
  }

  function Init(batches: seq<seq<Lock>>): Sys {
    Sys(seq(|batches|, i requires 0 <= i < |batches| => Actor(batches[i], Start)), map[], [])
  }

  function Exec(batches: seq<seq<Lock>>, steps: seq<Step>): (s: Sys)
    ensures |s.actors| == |batches|
  {
    if steps == [] then Init(batches)
    else Next(Exec(batches, steps[..|steps| - 1]), steps[|steps| - 1])
  }

  // ---- what an actor holds, read off its position ----

  function One(x: Lock, l: Lock): int {
    if x == l then 1 else 0
  }

  // How often the actor at `pc` holds `l`.
  function Held(b: seq<Lock>, pc: Pc, l: Lock): nat
    requires WellFormed(b, pc)
  {
    match pc
    case First(h, n) => Bag(b, 0, n)[l] + One(b[h], l)
    case Second(h, n) => Bag(b, 0, n)[l]
    case InnerBack(h, k, f) => Bag(b, k, f)[l] + (if f < h then One(b[h], l) else Bag(b, 0, h + 1)[l])
    case OuterBack(h, k, f) => Bag(b, k, h + 1)[l]
    case PairTry(i) => One(b[i], l)
    case PairBack(i) => One(b[i], l)
    case Finished(rest) => rest[l]
    case _ => 0
  }

  // Every actor holds what its position says.
  ghost predicate HoldInv(s: Sys) {
    && (forall a :: 0 <= a < |s.actors| ==> WellFormed(s.actors[a].batch, s.actors[a].pc))
    && (forall l :: l in s.own ==> s.own[l].actor < |s.actors| && s.own[l].count > 0)
    && (forall a, l :: 0 <= a < |s.actors| ==> Held(s.actors[a].batch, s.actors[a].pc, l) == Count(s.own, l, a))
  }

  // No wake-up is lost: every suspended actor is at a blocking lock of a mutex that somebody else owns, save
  // those waiting for `freed`, a mutex that was unlocked just now.
  ghost predicate WaitInv(s: Sys, freed: Option<Lock>)
    requires HoldInv(s)
  {
    && NoDuplicates(s.waits)
    && forall i :: 0 <= i < |s.waits| ==>
         && s.waits[i] < |s.actors|
         && var op := OpAt(s.actors[s.waits[i]].batch, s.actors[s.waits[i]].pc);
            && op.Block?
            && (op.l in s.own || freed == Some(op.l))
            && (op.l in s.own ==> s.own[op.l].actor != s.waits[i])
  }

  ghost predicate Inv(s: Sys) {
    HoldInv(s) && WaitInv(s, None)
  }

  lemma BagBack(b: seq<Lock>, i: nat, j: nat, l: Lock)
    requires i <= j < |b|
    ensures Bag(b, i, j + 1)[l] == Bag(b, i, j)[l] + One(b[j], l)
  {
  }

  lemma BagFront(b: seq<Lock>, i: nat, j: nat, l: Lock)
    requires i < j <= |b|
    ensures Bag(b, i, j)[l] == One(b[i], l) + Bag(b, i + 1, j)[l]
  {
    BagSplit(b, i, i + 1, j);
    BagBack(b, i, i, l);
  }

  lemma SuccessIsWellFormed(b: seq<Lock>, pc: Pc)
    requires WellFormed(b, pc)
    ensures WellFormed(b, OnSuccess(b, pc))
  {
  }

  // By how much the operation changes the holding of `l`.
  function Change(op: Op, l: Lock): int {
    match op
    case Nothing => 0
    case Unlock(x) => -One(x, l)
    case Block(x) => One(x, l)
    case Try(x) => One(x, l)
  }

  // The position after an operation holds what the position before holds, changed by the operation.
  lemma HeldFollowsOp(b: seq<Lock>, pc: Pc, l: Lock)
    requires WellFormed(b, pc) && !pc.Finished? && WellFormed(b, OnSuccess(b, pc))
    ensures Held(b, OnSuccess(b, pc), l) == Held(b, pc, l) + Change(OpAt(b, pc), l)
  {
    if pc.InnerBack? {
      HeldFollowsInnerBack(b, pc.h, pc.k, pc.f, l);
    } else if pc.OuterBack? {
      HeldFollowsOuterBack(b, pc.h, pc.k, pc.f, l);
    } else if pc.First? {
      HeldFollowsFirst(b, pc.h, pc.n, l);
    } else if pc.Second? {
      HeldFollowsSecond(b, pc.h, pc.n, l);
    } else if pc.Single? {
      assert b == [b[0]];
    } else if pc.PairTry? {
      assert b == [b[0], b[1]];
    }
  }

  lemma HeldFollowsFirst(b: seq<Lock>, h: nat, n: nat, l: Lock)
    requires WellFormed(b, First(h, n))
    ensures var pc := First(h, n);
            WellFormed(b, OnSuccess(b, pc)) && Held(b, OnSuccess(b, pc), l) == Held(b, pc, l) + Change(OpAt(b, pc), l)
  {
    BagBack(b, 0, n, l);
  }

  lemma HeldFollowsSecond(b: seq<Lock>, h: nat, n: nat, l: Lock)
    requires WellFormed(b, Second(h, n))
    ensures var pc := Second(h, n);
            WellFormed(b, OnSuccess(b, pc)) && Held(b, OnSuccess(b, pc), l) == Held(b, pc, l) + Change(OpAt(b, pc), l)
  {
    if n < |b| {
      BagBack(b, 0, n, l);
    } else {
      WholeBag(b);
    }
  }

  lemma HeldFollowsInnerBack(b: seq<Lock>, h: nat, k: nat, f: nat, l: Lock)
    requires WellFormed(b, InnerBack(h, k, f))
    ensures var pc := InnerBack(h, k, f);
            WellFormed(b, OnSuccess(b, pc)) && Held(b, OnSuccess(b, pc), l) == Held(b, pc, l) + Change(OpAt(b, pc), l)
  {
    if k < f {
      BagFront(b, k, f, l);
    } else {
      BagFront(b, h, h + 1, l);
    }
  }

  lemma HeldFollowsOuterBack(b: seq<Lock>, h: nat, k: nat, f: nat, l: Lock)
    requires WellFormed(b, OuterBack(h, k, f))
    ensures var pc := OuterBack(h, k, f);
            WellFormed(b, OnSuccess(b, pc)) && Held(b, OnSuccess(b, pc), l) == Held(b, pc, l) + Change(OpAt(b, pc), l)
  {
    if k <= h {
      BagFront(b, k, h + 1, l);
    }
  }

  lemma HeldFollowsRefusal(b: seq<Lock>, pc: Pc, l: Lock)
    requires WellFormed(b, pc) && OpAt(b, pc).Try?
    ensures WellFormed(b, OnRefusal(pc)) && Held(b, OnRefusal(pc), l) == Held(b, pc, l)
  {
    match pc
    case First(h, n) =>
    case Second(h, n) => BagSplit(b, 0, h + 1, n);
    case PairTry(i) =>
  }

  lemma AcquireCounts(own: map<Lock, Own>, x: Lock, a: nat, l: Lock, o: nat)
    requires Lockable(own, x, a)
    ensures Count(Acquire(own, x, a), l, o) == Count(own, l, o) + (if o == a then One(x, l) else 0)
  {
  }

  lemma RelinquishCounts(own: map<Lock, Own>, x: Lock, a: nat, l: Lock, o: nat)
    requires Count(own, x, a) > 0
    ensures Count(own, l, o) == Count(Relinquish(own, x, a), l, o) + (if o == a then One(x, l) else 0)
  {
  }

  // What one actor's step does to its holdings of `l`, and to anyone's count of it.
  lemma ActorStepCounts(actor: Actor, a: nat, own: map<Lock, Own>, l: Lock, o: nat)
    requires WellFormed(actor.batch, actor.pc) && !actor.pc.Finished?
    requires forall x :: Held(actor.batch, actor.pc, x) == Count(own, x, a)
    ensures var (pc, own') := ActorStep(actor, a, own);
            && WellFormed(actor.batch, pc)
            && Held(actor.batch, pc, l) == Count(own', l, a)
            && (o != a ==> Count(own', l, o) == Count(own, l, o))
  {
    var b, pc := actor.batch, actor.pc;
    SuccessIsWellFormed(b, pc);
    HeldFollowsOp(b, pc, l);
    match OpAt(b, pc)
    case Nothing =>
    case Block(x) =>
      if Lockable(own, x, a) {
        AcquireCounts(own, x, a, l, a);
        AcquireCounts(own, x, a, l, o);
      }
    case Try(x) =>
      if Lockable(own, x, a) {
        AcquireCounts(own, x, a, l, a);
        AcquireCounts(own, x, a, l, o);
      } else {
        HeldFollowsRefusal(b, pc, l);
      }
    case Unlock(x) =>
      HeldFollowsOp(b, pc, x);
      assert Held(b, pc, x) > 0;
      RelinquishCounts(own, x, a, l, a);
      RelinquishCounts(own, x, a, l, o);
  }

  lemma AdvanceKeepsHolds(s: Sys, a: nat)
    requires HoldInv(s) && a < |s.actors|
    ensures HoldInv(Advance(s, a))
  {
    if !s.actors[a].pc.Finished? {
      var s' := Advance(s, a);
      OwnersStay(s.actors[a], a, s.own, |s.actors|);
      ActorStepCounts(s.actors[a], a, s.own, 0, 0);
      forall o, l | 0 <= o < |s.actors|
        ensures Held(s'.actors[o].batch, s'.actors[o].pc, l) == Count(s'.own, l, o)
      {
        ActorStepCounts(s.actors[a], a, s.own, l, o);
        assert Held(s.actors[o].batch, s.actors[o].pc, l) == Count(s.own, l, o);
      }
    }
  }

  // An actor that is not suspended advances.
  lemma AdvanceKeepsWaits(s: Sys, a: nat, freed: Option<Lock>)
    requires Inv(s) && a < |s.actors| && a !in s.waits && HoldInv(Advance(s, a))
    requires var op := OpAt(s.actors[a].batch, s.actors[a].pc); op.Unlock? ==> freed == Some(op.l)
    ensures WaitInv(Advance(s, a), freed)
  {
  }

  // The waiter at position `i` takes the free mutex `l` and goes on.
  lemma WaiterTakes(s: Sys, l: Lock, i: nat)
    requires i < |s.waits| && WaitsFor(s.actors, s.waits[i], l) && l !in s.own
    ensures var w, rest := s.waits[i], s.waits[..i] + s.waits[i + 1..];
            Advance(s.(waits := rest), w)
              == Sys(s.actors[w := s.actors[w].(pc := OnSuccess(s.actors[w].batch, s.actors[w].pc))],
                     s.own[l := Own(w, 1)], rest)
  {
  }

  lemma TakingKeepsWaits(s: Sys, s': Sys, l: Lock, i: nat)
    requires HoldInv(s) && WaitInv(s, Some(l)) && HoldInv(s') && l !in s.own && i < |s.waits|
    requires |s'.actors| == |s.actors| && s'.own == s.own[l := Own(s.waits[i], 1)]
    requires forall o :: 0 <= o < |s.actors| && o != s.waits[i] ==> s'.actors[o] == s.actors[o]
    requires s'.waits == s.waits[..i] + s.waits[i + 1..]
    ensures WaitInv(s', None)
  {
    assert forall j :: 0 <= j < |s'.waits| ==> s'.waits[j] == s.waits[if j < i then j else j + 1];
  }

  lemma HandOverKeepsInv(s: Sys, l: Lock)
    requires HoldInv(s) && WaitInv(s, Some(l))
    ensures Inv(HandOver(s, l))
  {
    var i := FirstFor(s.actors, s.waits, l);
    if l !in s.own && i < |s.waits| {
      var u := s.(waits := s.waits[..i] + s.waits[i + 1..]);
      assert HoldInv(u);
      AdvanceKeepsHolds(u, s.waits[i]);
      WaiterTakes(s, l, i);
      TakingKeepsWaits(s, HandOver(s, l), l, i);
    } else if l !in s.own {
      assert forall j :: 0 <= j < |s.waits| ==> !WaitsFor(s.actors, s.waits[j], l);
    }
  }

  lemma ActKeepsInv(s: Sys, a: nat)
    requires Inv(s)
    ensures Inv(Next(s, Act(a)))
  {
    if a < |s.actors| && a !in s.waits {
      var op := OpAt(s.actors[a].batch, s.actors[a].pc);
      AdvanceKeepsHolds(s, a);
      if op.Block? && !Lockable(s.own, op.l, a) {
        assert HoldInv(s.(waits := s.waits + [a]));
      } else if op.Unlock? {
        AdvanceKeepsWaits(s, a, Some(op.l));
        HandOverKeepsInv(Advance(s, a), op.l);
      } else {
        AdvanceKeepsWaits(s, a, None);
      }
    }
  }

  lemma OwnersStay(actor: Actor, a: nat, own: map<Lock, Own>, n: nat)
    requires WellFormed(actor.batch, actor.pc) && a < n
    requires forall l :: l in own ==> own[l].actor < n && own[l].count > 0
    ensures forall l :: l in ActorStep(actor, a, own).1 ==>
              ActorStep(actor, a, own).1[l].actor < n && ActorStep(actor, a, own).1[l].count > 0
  {
  }

  lemma ReleaseKeepsHolds(s: Sys, a: nat, x: Lock)
    requires HoldInv(s) && a < |s.actors| && s.actors[a].pc.Finished? && x in s.actors[a].pc.rest
    ensures HoldInv(Released(s, a, x))
  {
    var s' := Released(s, a, x);
    assert Held(s.actors[a].batch, s.actors[a].pc, x) > 0;
    forall o, l | 0 <= o < |s.actors|
      ensures Held(s'.actors[o].batch, s'.actors[o].pc, l) == Count(s'.own, l, o)
    {
      RelinquishCounts(s.own, x, a, l, o);
      assert Held(s.actors[o].batch, s.actors[o].pc, l) == Count(s.own, l, o);
    }
  }

  lemma ReleaseKeepsInv(s: Sys, a: nat, x: Lock)
    requires Inv(s)
    ensures Inv(Next(s, Release(a, x)))
  {
    if a < |s.actors| && a !in s.waits && s.actors[a].pc.Finished? && x in s.actors[a].pc.rest {
      ReleaseKeepsHolds(s, a, x);
      assert WaitInv(Released(s, a, x), Some(x));
      HandOverKeepsInv(Released(s, a, x), x);
    }
  }

  lemma {:induction false} ExecKeepsInv(batches: seq<seq<Lock>>, steps: seq<Step>)
    ensures Inv(Exec(batches, steps))
  {
    if steps != [] {
      ExecKeepsInv(batches, steps[..|steps| - 1]);
      var s := Exec(batches, steps[..|steps| - 1]);
      match steps[|steps| - 1]
      case Act(a) => ActKeepsInv(s, a);
      case Release(a, l) => ReleaseKeepsInv(s, a, l);
    }
  }

  // ---- what a step does to one actor ----

  // An actor that has not its batch yet stays where it is, or goes where its operation leads.
  ghost predicate Moves(b: seq<Lock>, pc: Pc, pc': Pc)
    requires WellFormed(b, pc)
  {
    pc' == pc || pc' == OnSuccess(b, pc) || pc' == OnRefusal(pc)
  }

  lemma StepMovesActor(s: Sys, step: Step, a: nat)
    requires Inv(s) && a < |s.actors| && !s.actors[a].pc.Finished?
    ensures var b := s.actors[a].batch;
            Next(s, step).actors[a].batch == b && Moves(b, s.actors[a].pc, Next(s, step).actors[a].pc)
  {
  }

  lemma StepKeepsBatch(s: Sys, step: Step, a: nat)
    requires a < |s.actors|
    ensures Next(s, step).actors[a].batch == s.actors[a].batch
  {
  }

  lemma {:induction false} ExecKeepsBatches(batches: seq<seq<Lock>>, steps: seq<Step>, a: nat)
    requires a < |batches|
    ensures Exec(batches, steps).actors[a].batch == batches[a]
  {
    if steps != [] {
      ExecKeepsBatches(batches, steps[..|steps| - 1], a);
      StepKeepsBatch(Exec(batches, steps[..|steps| - 1]), steps[|steps| - 1], a);
    }
  }

  lemma StuckIsBlocked(actor: Actor, a: nat, own: map<Lock, Own>)
    requires WellFormed(actor.batch, actor.pc) && !actor.pc.Finished?
    requires ActorStep(actor, a, own).0 == actor.pc
    ensures var op := OpAt(actor.batch, actor.pc); op.Block? && !Lockable(own, op.l, a)
  {
  }

  // Whoever is not suspended and has not its batch yet can act: at the least, it suspends.
  lemma UnsuspendedActs(s: Sys, a: nat)
    requires Inv(s) && a < |s.actors| && a !in s.waits && !s.actors[a].pc.Finished?
    ensures Next(s, Act(a)) != s
  {
    if ActorStep(s.actors[a], a, s.own).0 == s.actors[a].pc {
      StuckIsBlocked(s.actors[a], a, s.own);
    } else {
      var op := OpAt(s.actors[a].batch, s.actors[a].pc);
      if op.Unlock? {
        HandOverSparesOthers(Advance(s, a), op.l, a);
      }
    }
  }

  lemma HandOverSparesOthers(s: Sys, l: Lock, a: nat)
    requires a < |s.actors| && a !in s.waits
    ensures HandOver(s, l).actors[a] == s.actors[a]
  {
  }

  lemma SuspendedHoldsNothing(b: seq<Lock>, pc: Pc)
    requires WellFormed(b, pc) && OpAt(b, pc).Block?
    ensures OpAt(b, pc).l in b && forall l :: Held(b, pc, l) == 0
  {
  }

  // ---- the theorems ----

  /** An actor that cannot take its next step is suspended at a blocking lock, and holds no mutex at all. */
  lemma {:induction false} BlockedHoldsNothing(batches: seq<seq<Lock>>, steps: seq<Step>, a: nat)
    requires a < |batches|
    requires !Exec(batches, steps).actors[a].pc.Finished?
    requires Next(Exec(batches, steps), Act(a)) == Exec(batches, steps)
    ensures a in Exec(batches, steps).waits
    ensures forall l :: Count(Exec(batches, steps).own, l, a) == 0
    ensures exists l :: l in batches[a] && l in Exec(batches, steps).own && Exec(batches, steps).own[l].actor != a
  {
    ExecKeepsInv(batches, steps);
    ExecKeepsBatches(batches, steps, a);
    var s := Exec(batches, steps);
    if a !in s.waits {
      UnsuspendedActs(s, a);
    }
    var actor := s.actors[a];
    SuspendedHoldsNothing(actor.batch, actor.pc);
    assert forall l :: Held(actor.batch, actor.pc, l) == Count(s.own, l, a);
  }

  // The actor that owns `l` can make progress: with its batch, or by giving the mutex back once it has it.
  ghost predicate OwnerMoves(s: Sys, l: Lock, o: nat) {
    && l in s.own && s.own[l].actor == o < |s.actors|
    && if s.actors[o].pc.Finished? then Next(s, Release(o, l)) != s else Next(s, Act(o)) != s
  }

  /**
   Deadlock freedom, for each actor by itself: one that has not its batch yet can move, or it waits for a
   mutex of its batch whose owner can move or, having its own batch, release that very mutex.
   */
  lemma {:induction false} DeadlockFree(batches: seq<seq<Lock>>, steps: seq<Step>, a: nat)
    requires a < |batches| && !Exec(batches, steps).actors[a].pc.Finished?
    ensures var s := Exec(batches, steps);
            || Next(s, Act(a)) != s
            || (a in s.waits && exists l, o :: l in batches[a] && o != a && OwnerMoves(s, l, o))
  {
    ExecKeepsInv(batches, steps);
    ExecKeepsBatches(batches, steps, a);
    var s := Exec(batches, steps);
    if a !in s.waits {
      UnsuspendedActs(s, a);
    } else {
      SuspendedHoldsNothing(s.actors[a].batch, s.actors[a].pc);
      var l := OpAt(s.actors[a].batch, s.actors[a].pc).l;
      OwnerCanMove(s, l);
      assert OwnerMoves(s, l, s.own[l].actor);
    }
  }

  lemma OwnerCanMove(s: Sys, l: Lock)
    requires Inv(s) && l in s.own
    ensures OwnerMoves(s, l, s.own[l].actor)
  {
    var o := s.own[l].actor;
    assert Held(s.actors[o].batch, s.actors[o].pc, l) == Count(s.own, l, o) > 0;
    if o in s.waits {
      SuspendedHoldsNothing(s.actors[o].batch, s.actors[o].pc);
    } else if s.actors[o].pc.Finished? {
      HandOverSparesOthers(Released(s, o, l), l, o);
    } else {
      UnsuspendedActs(s, o);
    }
  }

  /** A suspended actor goes on only by becoming the owner, and only as the first of those waiting for its mutex. */
  lemma {:induction false} HandedOverInOrder(batches: seq<seq<Lock>>, steps: seq<Step>, step: Step, i: nat)
    requires i < |Exec(batches, steps).waits|
    requires Exec(batches, steps).waits[i] !in Next(Exec(batches, steps), step).waits
    ensures var s, s' := Exec(batches, steps), Next(Exec(batches, steps), step);
            var w := s.waits[i];
            exists l :: && WaitsFor(s.actors, w, l) && l in s'.own && s'.own[l] == Own(w, 1)
                        && s'.actors[w].pc == OnSuccess(s.actors[w].batch, s.actors[w].pc)
                        && forall j :: 0 <= j < i ==> !WaitsFor(s.actors, s.waits[j], l)
  {
    ExecKeepsInv(batches, steps);
    var s := Exec(batches, steps);
    match step
    case Act(a) =>
      var l := OpAt(s.actors[a].batch, s.actors[a].pc).l;
      HandOverInOrder(s, Advance(s, a), l, a, i);
    case Release(a, l) => HandOverInOrder(s, Released(s, a, l), l, a, i);
  }

  /** Who is suspended joins at the end, and the others keep their order: so the first for a mutex waited longest. */
  lemma SuspendsAtTheEnd(batches: seq<seq<Lock>>, steps: seq<Step>, step: Step)
    ensures var s, s' := Exec(batches, steps), Next(Exec(batches, steps), step);
            || s'.waits == s.waits
            || (step.Act? && s'.waits == s.waits + [step.a] && s'.own == s.own &&
                exists l :: WaitsFor(s.actors, step.a, l) && !Lockable(s.own, l, step.a))
            || exists i :: 0 <= i < |s.waits| && s'.waits == s.waits[..i] + s.waits[i + 1..]
  {
    ExecKeepsInv(batches, steps);
  }

  lemma OthersStay(waits: seq<nat>, k: nat)
    requires k < |waits|
    ensures forall i :: 0 <= i < |waits| && i != k ==> waits[i] in waits[..k] + waits[k + 1..]
  {
    var rest := waits[..k] + waits[k + 1..];
    assert forall i :: 0 <= i < |waits| && i != k ==> waits[i] == rest[if i < k then i else i - 1];
  }

  // `u` is `s` after `a`, which is not suspended, has unlocked `l`.
  lemma HandOverInOrder(s: Sys, u: Sys, l: Lock, a: nat, i: nat)
    requires Inv(s) && i < |s.waits| && a < |s.actors| && a !in s.waits
    requires u.waits == s.waits && |u.actors| == |s.actors|
    requires forall o :: 0 <= o < |s.actors| && o != a ==> u.actors[o] == s.actors[o]
    requires s.waits[i] !in HandOver(u, l).waits
    ensures var s', w := HandOver(u, l), s.waits[i];
            && WaitsFor(s.actors, w, l) && l in s'.own && s'.own[l] == Own(w, 1)
            && s'.actors[w].pc == OnSuccess(s.actors[w].batch, s.actors[w].pc)
            && forall j :: 0 <= j < i ==> !WaitsFor(s.actors, s.waits[j], l)
  {
    var k := FirstFor(u.actors, u.waits, l);
    if l !in u.own && k < |u.waits| {
      WaiterTakes(u, l, k);
      OthersStay(s.waits, k);
    }
  }

  /** An actor finishes holding each mutex exactly as often as its batch lists it, and shares none with anyone else. */
  lemma {:induction false} FinishesWithItsBatch(batches: seq<seq<Lock>>, steps: seq<Step>, step: Step, a: nat)
    requires a < |batches| && !Exec(batches, steps).actors[a].pc.Finished?
    requires Next(Exec(batches, steps), step).actors[a].pc.Finished?
    ensures var own := Next(Exec(batches, steps), step).own;
            && (forall l :: Count(own, l, a) == multiset(batches[a])[l])
            && (forall l, o :: l in batches[a] && o != a ==> Count(own, l, o) == 0)
  {
    ExecKeepsInv(batches, steps);
    ExecKeepsBatches(batches, steps, a);
    var s, s' := Exec(batches, steps), Next(Exec(batches, steps), step);
    match step {
      case Act(o) => ActKeepsInv(s, o);
      case Release(o, l) => ReleaseKeepsInv(s, o, l);
    }
    StepMovesActor(s, step, a);
    FinishedHasAll(s.actors[a].batch, s.actors[a].pc);
    assert s'.actors[a].pc == Finished(multiset(batches[a]));
    forall l
      ensures Count(s'.own, l, a) == multiset(batches[a])[l]
    {
      assert Held(s'.actors[a].batch, s'.actors[a].pc, l) == Count(s'.own, l, a);
    }
    forall l | l in batches[a]
      ensures Count(s'.own, l, a) > 0
    {
    }
  }

  lemma FinishedHasAll(b: seq<Lock>, pc: Pc)
    requires WellFormed(b, pc) && !pc.Finished?
    ensures !OnRefusal(pc).Finished?
    ensures OnSuccess(b, pc).Finished? ==> OnSuccess(b, pc) == Finished(multiset(b))
  {
  }

  // ---- which mutex comes first in the next attempt ----

  // The position whose try the actor would now have refused.
  function TriedAt(b: seq<Lock>, pc: Pc): Option<nat>
    requires WellFormed(b, pc)
  {
    match pc
    case First(h, n) => if n < h then Some(n) else None
    case Second(h, n) => if n < |b| then Some(n) else None
    case PairTry(i) => Some(1 - i)
    case _ => None
  }

  // The position whose refusal the actor is backing out from.
  function RefusedAt(pc: Pc): Option<nat> {
    match pc
    case InnerBack(_, _, f) => Some(f)
    case OuterBack(_, _, f) => Some(f)
    case Pause(f) => Some(f)
    case PairBack(i) => if i < 2 then Some(1 - i) else None
    case PairPause(i) => if i < 2 then Some(1 - i) else None
    case _ => None
  }

  lemma RefusalIsRemembered(b: seq<Lock>, pc: Pc)
    requires WellFormed(b, pc)
    ensures OpAt(b, pc).Try? <==> TriedAt(b, pc).Some?
    ensures OpAt(b, pc).Try? ==> TriedAt(b, pc).value < |b| && OpAt(b, pc).l == b[TriedAt(b, pc).value]
    ensures OpAt(b, pc).Try? ==> RefusedAt(OnRefusal(pc)) == TriedAt(b, pc)
  {
  }

  // The actor is still backing out from the refusal at position `f`, or about to block there.
  ghost predicate Retries(actor: Actor, f: nat) {
    && IsWellFormed(actor) && f < |actor.batch|
    && (RefusedAt(actor.pc) == Some(f) || OpAt(actor.batch, actor.pc) == Block(actor.batch[f]))
  }

  lemma BackingOutLeadsToRetry(s: Sys, step: Step, a: nat, f: nat)
    requires Inv(s) && a < |s.actors| && RefusedAt(s.actors[a].pc) == Some(f) && f < |s.actors[a].batch|
    ensures Retries(Next(s, step).actors[a], f)
  {
    StepMovesActor(s, step, a);
    SuccessIsWellFormed(s.actors[a].batch, s.actors[a].pc);
  }

  /**
   After a refused try the actor blocks, with its next lock operation but for the unlocks, in the very mutex that
   was refused: at every later point of the run it is still backing out, or it has come to that blocking lock.
   */
  lemma {:induction false} RetriesWhatWasRefused(batches: seq<seq<Lock>>, steps: seq<Step>, more: seq<Step>,
                                                 a: nat, f: nat)
    requires a < |batches| && RefusedAt(Exec(batches, steps).actors[a].pc) == Some(f) && f < |batches[a]|
    ensures RefusedAt(Exec(batches, steps + more).actors[a].pc) == Some(f) ||
            BlockedMeanwhile(batches, steps, more, a, f)
  {
    if more == [] {
      assert steps + more == steps;
    } else {
      var n := |more| - 1;
      RetriesWhatWasRefused(batches, steps, more[..n], a, f);
      if RefusedAt(Exec(batches, steps + more[..n]).actors[a].pc) == Some(f) {
        RetriesAfterOne(batches, steps + more[..n], more[n], a, f);
        assert steps + more[..n] + [more[n]] == steps + more;
        assert more[..|more|] == more;
      } else {
        BlockedEarlier(batches, steps, more, a, f);
      }
    }
  }

  lemma BlockedEarlier(batches: seq<seq<Lock>>, steps: seq<Step>, more: seq<Step>, a: nat, f: nat)
    requires a < |batches| && f < |batches[a]| && more != []
    requires BlockedMeanwhile(batches, steps, more[..|more| - 1], a, f)
    ensures BlockedMeanwhile(batches, steps, more, a, f)
  {
    var k :| 0 <= k <= |more| - 1 && BlocksAt(batches, steps + more[..|more| - 1][..k], a, f);
    assert more[..|more| - 1][..k] == more[..k];
  }

  lemma RetriesAfterOne(batches: seq<seq<Lock>>, steps: seq<Step>, step: Step, a: nat, f: nat)
    requires a < |batches| && RefusedAt(Exec(batches, steps).actors[a].pc) == Some(f) && f < |batches[a]|
    ensures RefusedAt(Exec(batches, steps + [step]).actors[a].pc) == Some(f) ||
            BlocksAt(batches, steps + [step], a, f)
  {
    ExecKeepsInv(batches, steps);
    ExecKeepsBatches(batches, steps, a);
    ExecKeepsBatches(batches, steps + [step], a);
    BackingOutLeadsToRetry(Exec(batches, steps), step, a, f);
    assert (steps + [step])[..|steps|] == steps;
  }

  // At some point from `steps` on the actor has come to its blocking lock of position `f`.
  ghost predicate BlockedMeanwhile(batches: seq<seq<Lock>>, steps: seq<Step>, more: seq<Step>, a: nat, f: nat)
    requires a < |batches| && f < |batches[a]|
  {
    exists k :: 0 <= k <= |more| && BlocksAt(batches, steps + more[..k], a, f)
  }

  ghost predicate BlocksAt(batches: seq<seq<Lock>>, steps: seq<Step>, a: nat, f: nat)
    requires a < |batches| && f < |batches[a]|
  {
    var actor := Exec(batches, steps).actors[a];
    IsWellFormed(actor) && OpAt(actor.batch, actor.pc) == Block(batches[a][f])
  }

  // ---- an actor in nobody's way ----

  // The mutexes of the actor's batch are free or its own, and nobody waits for them.
  ghost predicate Alone(s: Sys, a: nat)
    requires a < |s.actors|
  {
    && a !in s.waits
    && forall l :: l in s.actors[a].batch ==>
         Lockable(s.own, l, a) && forall i :: 0 <= i < |s.waits| ==> !WaitsFor(s.actors, s.waits[i], l)
  }

  // How many steps the actor is from its batch if nothing is refused.
  function Distance(b: seq<Lock>, pc: Pc): nat
    requires WellFormed(b, pc)
  {
    match pc
    case Finished(_) => 0
    case Single => 1
    case PairTry(_) => 1
    case Pair(_) => 2
    case PairPause(_) => 3
    case PairBack(_) => 4
    case Second(h, n) => |b| - n + 1
    case First(h, n) => |b| - n + 1
    case Hard(_) => |b| + 2
    case Pause(_) => |b| + 3
    case OuterBack(h, k, _) => |b| + 5 + h - k
    case InnerBack(h, k, f) => |b| + 6 + (f - k) + if f < h then 0 else h
    case Start => |b| + 3
  }

  lemma AloneStays(s: Sys, a: nat)
    requires Inv(s) && a < |s.actors| && !s.actors[a].pc.Finished? && Alone(s, a)
    ensures Alone(Next(s, Act(a)), a)
  {
    OpIsInBatch(s.actors[a].batch, s.actors[a].pc);
  }

  lemma AloneComesCloser(s: Sys, a: nat)
    requires Inv(s) && a < |s.actors| && !s.actors[a].pc.Finished? && Alone(s, a)
    ensures var b, s' := s.actors[a].batch, Next(s, Act(a));
            && s'.actors[a].batch == b && WellFormed(b, s'.actors[a].pc)
            && Distance(b, s'.actors[a].pc) < Distance(b, s.actors[a].pc)
  {
    OpIsInBatch(s.actors[a].batch, s.actors[a].pc);
    SuccessIsWellFormed(s.actors[a].batch, s.actors[a].pc);
  }

  lemma OpIsInBatch(b: seq<Lock>, pc: Pc)
    requires WellFormed(b, pc)
    ensures var op := OpAt(b, pc); op != Nothing ==> op.l in b
  {
  }

  function Acts(a: nat, n: nat): seq<Step> {
    seq(n, _ => Act(a))
  }

  ghost predicate FinishedAfter(batches: seq<seq<Lock>>, steps: seq<Step>, a: nat, n: nat)
    requires a < |batches|
  {
    Exec(batches, steps + Acts(a, n)).actors[a].pc.Finished?
  }

  // The actor is in nobody's way, and has its batch after at most `d` further steps.
  ghost predicate Near(s: Sys, a: nat, d: nat)
    requires a < |s.actors|
  {
    Alone(s, a) && IsWellFormed(s.actors[a]) && Distance(s.actors[a].batch, s.actors[a].pc) <= d
  }

  lemma AloneComesNearer(s: Sys, a: nat, d: nat)
    requires Inv(s) && a < |s.actors| && Near(s, a, d) && !s.actors[a].pc.Finished?
    ensures d > 0 && Near(Next(s, Act(a)), a, d - 1)
  {
    AloneStays(s, a);
    AloneComesCloser(s, a);
  }

  lemma {:induction false} FinishesWithin(batches: seq<seq<Lock>>, steps: seq<Step>, a: nat, d: nat) returns (n: nat)
    requires a < |batches| && Near(Exec(batches, steps), a, d)
    ensures n <= d && FinishedAfter(batches, steps, a, n)
    decreases d
  {
    if Exec(batches, steps).actors[a].pc.Finished? {
      n := 0;
      assert FinishedAfter(batches, steps, a, 0) by {
        assert steps + Acts(a, 0) == steps;
      }
    } else {
      NearAfterOne(batches, steps, a, d);
      n := FinishesWithin(batches, steps + [Act(a)], a, d - 1);
      FinishedOneLater(batches, steps, a, n);
      n := n + 1;
    }
  }

  lemma FinishedOneLater(batches: seq<seq<Lock>>, steps: seq<Step>, a: nat, n: nat)
    requires a < |batches| && FinishedAfter(batches, steps + [Act(a)], a, n)
    ensures FinishedAfter(batches, steps, a, n + 1)
  {
    assert steps + [Act(a)] + Acts(a, n) == steps + Acts(a, n + 1);
  }

  lemma NearAfterOne(batches: seq<seq<Lock>>, steps: seq<Step>, a: nat, d: nat)
    requires a < |batches| && Near(Exec(batches, steps), a, d) && !Exec(batches, steps).actors[a].pc.Finished?
    ensures d > 0 && Near(Exec(batches, steps + [Act(a)]), a, d - 1)
  {
    ExecKeepsInv(batches, steps);
    AloneComesNearer(Exec(batches, steps), a, d);
    assert (steps + [Act(a)])[..|steps|] == steps;
  }

  /** An actor in nobody's way gets its batch by its own steps alone, and in so many as it is away from it. */
  lemma {:induction false} FinishesAlone(batches: seq<seq<Lock>>, steps: seq<Step>, a: nat)
    requires a < |batches| && Alone(Exec(batches, steps), a)
    ensures IsWellFormed(Exec(batches, steps).actors[a])
    ensures var actor := Exec(batches, steps).actors[a];
            exists n: nat :: n <= Distance(actor.batch, actor.pc) && FinishedAfter(batches, steps, a, n)
  {
    ExecKeepsInv(batches, steps);
    var actor := Exec(batches, steps).actors[a];
    var _ := FinishesWithin(batches, steps, a, Distance(actor.batch, actor.pc));
  }
}
