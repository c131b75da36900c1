/**
 The scheduler's run queue and task table. A batch swaps the running list with an empty cached list and
 resumes the cached entries in order; what they enqueue meanwhile waits for a later batch.
 */
module RunQueue {
  import opened Prelude
  import Timer
  import TimerSpec

  // ---- the queue as a value ----

  // `added` and `resumed` list every entry ever added and ever resumed, in order.
  datatype Queue<K> = Queue(pending: seq<K>, added: seq<K>, resumed: seq<K>)

  function AddEntry<K>(q: Queue<K>, k: K): Queue<K> {
    q.(pending := q.pending + [k], added := q.added + [k])
  }

  // What the first `n` resumptions of a batch enqueue while they run.
  function Spawned<K>(spawn: nat -> seq<K>, n: nat): seq<K> {
    if n == 0 then [] else Spawned(spawn, n - 1) + spawn(n - 1)
  }

  // A batch: exactly the entries present at its start run; exactly those it spawns are left.
  function Batch<K>(q: Queue<K>, spawn: nat -> seq<K>): Queue<K> {
    var spawned := Spawned(spawn, |q.pending|);
    Queue(spawned, q.added + spawned, q.resumed + q.pending)
  }

  function AddEntries<K>(q: Queue<K>, ks: seq<K>): Queue<K> {
    q.(pending := q.pending + ks, added := q.added + ks)
  }

  datatype Op<!K> = Adding(k: K) | Batching(spawn: nat -> seq<K>)

  function Run<K>(ops: seq<Op<K>>): Queue<K> {
    if ops == [] then Queue([], [], [])
    else
      var q := Run(ops[..|ops| - 1]);
      match ops[|ops| - 1]
      case Adding(k) => AddEntry(q, k)
      case Batching(spawn) => Batch(q, spawn)
  }

  /** Over any run, entries are resumed in the order of their addition, each once: those resumed, then those pending. */
  lemma {:induction false} FifoOverRuns<K>(ops: seq<Op<K>>)
    ensures var q := Run(ops); q.resumed + q.pending == q.added
  {
    if ops != [] {
      FifoOverRuns(ops[..|ops| - 1]);
    }
  }

  lemma {:induction false} RunAppend<K>(ops: seq<Op<K>>, more: seq<Op<K>>)
    ensures Run(ops).added <= Run(ops + more).added && Run(ops).resumed <= Run(ops + more).resumed
  {
    if more == [] {
      assert ops + more == ops;
    } else {
      RunAppend(ops, more[..|more| - 1]);
      assert (ops + more)[..|ops + more| - 1] == ops + more[..|more| - 1];
    }
  }

  /** After a batch, exactly what was added before it has been resumed: nothing is left, and nothing it spawned ran. */
  lemma {:induction false} BatchResumesWhatWasThere<K>(ops: seq<Op<K>>, spawn: nat -> seq<K>)
    ensures Run(ops + [Batching(spawn)]).resumed == Run(ops).added
  {
    FifoOverRuns(ops);
    assert (ops + [Batching(spawn)])[..|ops|] == ops;
  }

  // Where in what a batch adds the part of its `i`-th entry begins.
  function Offset<K>(spawn: nat -> seq<K>, i: nat): nat {
    if i == 0 then 0 else Offset(spawn, i - 1) + |spawn(i - 1)|
  }

  // `part` is what `all` holds from place `at` on.
  predicate PartAt<K(==)>(all: seq<K>, at: nat, part: seq<K>) {
    at + |part| <= |all| && all[at..at + |part|] == part
  }

  lemma {:induction false} SpawnedInOrder<K>(spawn: nat -> seq<K>, n: nat, i: nat)
    requires i < n
    ensures |Spawned(spawn, n)| == Offset(spawn, n) && PartAt(Spawned(spawn, n), Offset(spawn, i), spawn(i))
  {
    SpawnedLength(spawn, n - 1);
    if i < n - 1 {
      SpawnedInOrder(spawn, n - 1, i);
      var at, all := Offset(spawn, i), Spawned(spawn, n - 1);
      assert Spawned(spawn, n)[at..at + |spawn(i)|] == all[at..at + |spawn(i)|];
    }
  }

  lemma {:induction false} SpawnedLength<K>(spawn: nat -> seq<K>, n: nat)
    ensures |Spawned(spawn, n)| == Offset(spawn, n)
  {
    if n > 0 {
      SpawnedLength(spawn, n - 1);
    }
  }

  /**
   What an operation adds comes behind all that was added before: the entry itself, or, for a batch, what its
   entries enqueue, entry by entry in the order in which they are resumed.
   */
  lemma {:induction false} AddedInOrder<K>(ops: seq<Op<K>>, k: K, spawn: nat -> seq<K>, i: nat)
    ensures Run(ops + [Adding(k)]).added == Run(ops).added + [k]
    ensures var q, after := Run(ops), Run(ops + [Batching(spawn)]).added;
            && q.added <= after && |after| == |q.added| + Offset(spawn, |q.pending|)
            && (i < |q.pending| ==> PartAt(after[|q.added|..], Offset(spawn, i), spawn(i)))
  {
    var q, after := Run(ops), Run(ops + [Batching(spawn)]).added;
    assert (ops + [Adding(k)])[..|ops|] == ops;
    assert (ops + [Batching(spawn)])[..|ops|] == ops;
    SpawnedLength(spawn, |q.pending|);
    assert after[|q.added|..] == Spawned(spawn, |q.pending|);
    if i < |q.pending| {
      SpawnedInOrder(spawn, |q.pending|, i);
    }
  }

  // What the first `n` resumptions of a batch do to the timers.
  function Performed(t: TimerSpec.Timers, deeds: nat -> seq<TimerSpec.Act>, n: nat): TimerSpec.Timers {
    if n == 0 then t else TimerSpec.Acts(Performed(t, deeds, n - 1), deeds(n - 1))
  }

  lemma {:induction false} PerformedKeepsInv(t: TimerSpec.Timers, deeds: nat -> seq<TimerSpec.Act>, n: nat)
    requires TimerSpec.Inv(t, [])
    ensures TimerSpec.Inv(Performed(t, deeds, n), [])
  {
    if n > 0 {
      PerformedKeepsInv(t, deeds, n - 1);
      TimerSpec.ActsKeepInv(Performed(t, deeds, n - 1), [], deeds(n - 1));
    }
  }

  lemma {:induction false} ActsOfBoth(t: TimerSpec.Timers, first: seq<TimerSpec.Act>, second: seq<TimerSpec.Act>)
    ensures TimerSpec.Acts(t, first + second) == TimerSpec.Acts(TimerSpec.Acts(t, first), second)
    decreases |first|
  {
    if first == [] {
      assert first + second == second;
    } else {
      ActsOfBoth(TimerSpec.Acted(t, first[0]), first[1..], second);
      assert (first + second)[1..] == first[1..] + second;
    }
  }

  /** All that the resumed entries do to the timers is done, entry by entry. */
  lemma {:induction false} PerformedInOrder(t: TimerSpec.Timers, deeds: nat -> seq<TimerSpec.Act>, n: nat)
    ensures Performed(t, deeds, n) == TimerSpec.Acts(t, Spawned(deeds, n))
  {
    if n > 0 {
      PerformedInOrder(t, deeds, n - 1);
      ActsOfBoth(t, Spawned(deeds, n - 1), deeds(n - 1));
    }
  }

  /** The timers stay valid over a batch, whatever their callbacks and the resumed coroutines do to them. */
  lemma BatchKeepsTimers(t: TimerSpec.Timers, now: int, script: TimerSpec.Script,
                         deeds: nat -> seq<TimerSpec.Act>, n: nat)
    requires TimerSpec.Inv(t, [])
    ensures TimerSpec.Inv(Performed(TimerSpec.Update(t, now, script), deeds, n), [])
  {
    TimerSpec.UpdateKeepsInv(t, now, script);
    PerformedKeepsInv(TimerSpec.Update(t, now, script), deeds, n);
  }

  // ---- the object ----

  type Task = nat

  class Scheduler<K(==)> {
    var runingStates: seq<K>
    var cachedStates: seq<K>
    var readyTask: map<K, Task>
    const timer: Timer.TimerManager
    ghost var queue: Queue<K>

    ghost predicate Valid()
      reads this
    {
      cachedStates == [] && runingStates == queue.pending && queue.resumed + queue.pending == queue.added
    }

    constructor ()
      ensures Valid() && queue == Queue([], [], []) && readyTask == map[] && fresh(timer) && timer.Valid()
    {
      timer := new Timer.TimerManager();
      runingStates, cachedStates, readyTask := [], [], map[];
      queue := Queue([], [], []);
    }

    method AddGenerator(k: K)
      modifies this`runingStates, this`queue
      ensures runingStates == old(runingStates) + [k] && queue == AddEntry(old(queue), k)
      ensures old(Valid()) ==> Valid()
    {
      runingStates := runingStates + [k];
      queue := AddEntry(queue, k);
    }

    /**
     The timers whose time has come are called, and then the entries of the batch are resumed. `woken` is what
     the timers' callbacks add to the queue; while the i-th entry is resumed, `spawn(i)` reaches the queue and
     `deeds(i)` is done to the timers.
     */
    method RunOneBatch(now: int, script: TimerSpec.Script, woken: seq<K>,
                       spawn: nat -> seq<K>, deeds: nat -> seq<TimerSpec.Act>)
      returns (ran: bool)
      requires Valid() && timer.Valid()
      modifies this`runingStates, this`cachedStates, this`queue, timer
      ensures Valid()
      ensures ran <==> old(runingStates) + woken != []
      ensures queue == Batch(AddEntries(old(queue), woken), spawn)
      ensures timer.Model() == Performed(TimerSpec.Update(old(timer.Model()), now, script), deeds,
                                         |old(runingStates) + woken|)
    {
      UpdateTimers(now, script);
      ran := RunEntries(woken, spawn, deeds);
    }

    method UpdateTimers(now: int, script: TimerSpec.Script)
      requires timer.Valid()
      modifies timer
      ensures timer.Model() == TimerSpec.Update(old(timer.Model()), now, script)
    {
      timer.Update(now, script);
    }

    // The batch once the timers have been called.
    method RunEntries(woken: seq<K>, spawn: nat -> seq<K>, deeds: nat -> seq<TimerSpec.Act>) returns (ran: bool)
      requires cachedStates == [] && runingStates == queue.pending
      modifies this`runingStates, this`cachedStates, this`queue, timer
      ensures cachedStates == [] && runingStates == queue.pending
      ensures ran <==> old(runingStates) + woken != []
      ensures queue == Batch(AddEntries(old(queue), woken), spawn)
      ensures timer.Model() == Performed(old(timer.Model()), deeds, |old(runingStates) + woken|)
    {
      AddAll(woken);
      if runingStates == [] {
        assert Batch(queue, spawn) == queue;
        return false;
      }
      RunBatch(spawn, deeds);
      return true;
    }

    method RunBatch(spawn: nat -> seq<K>, deeds: nat -> seq<TimerSpec.Act>)
      requires cachedStates == [] && runingStates == queue.pending
      modifies this`runingStates, this`cachedStates, this`queue, timer
      ensures cachedStates == [] && runingStates == queue.pending && queue == Batch(old(queue), spawn)
      ensures timer.Model() == Performed(old(timer.Model()), deeds, |old(runingStates)|)
    {
      cachedStates, runingStates := runingStates, cachedStates;
      ghost var q, t := queue, timer.Model();
      queue := queue.(pending := []);
      assert q.added + [] == q.added && q.resumed + q.pending[..0] == q.resumed;
      for i := 0 to |cachedStates|
        invariant cachedStates == q.pending
        invariant runingStates == Spawned(spawn, i)
        invariant queue == Queue(runingStates, q.added + runingStates, q.resumed + q.pending[..i])
        invariant timer.Model() == Performed(t, deeds, i)
      {
        assert q.pending[..i + 1] == q.pending[..i] + [q.pending[i]];
        Resume(cachedStates[i], spawn(i), deeds(i));
      }
      assert q.pending[..|q.pending|] == q.pending;
      cachedStates := [];
    }

    method AddAll(ks: seq<K>)
      requires runingStates == queue.pending
      modifies this`runingStates, this`queue
      ensures runingStates == old(runingStates) + ks && queue == AddEntries(old(queue), ks)
    {
      for i := 0 to |ks|
        invariant runingStates == old(runingStates) + ks[..i] && queue == AddEntries(old(queue), ks[..i])
      {
        AddGenerator(ks[i]);
      }
    }

    // Resuming one entry: on record, followed by whatever it does to the queue and the timers.
    method Resume(k: K, spawned: seq<K>, acts: seq<TimerSpec.Act>)
      requires runingStates == queue.pending
      modifies this`runingStates, this`queue, timer
      ensures runingStates == old(runingStates) + spawned
      ensures queue == Queue(runingStates, old(queue).added + spawned, old(queue).resumed + [k])
      ensures timer.Model() == TimerSpec.Acts(old(timer.Model()), acts)
    {
      queue := queue.(resumed := queue.resumed + [k]);
      timer.Perform(acts);
      AddAll(spawned);
    }

    /** A new task is entered in the table, unless its state has one, and queued if it has something to run. */
    method NewTask(k: K, task: Task, hasHandler: bool)
      modifies this`runingStates, this`queue, this`readyTask
      ensures readyTask == if k in old(readyTask) then old(readyTask) else old(readyTask)[k := task]
      ensures if hasHandler then queue == AddEntry(old(queue), k) && runingStates == old(runingStates) + [k]
              else queue == old(queue) && runingStates == old(runingStates)
    {
      AddSwitch(k, task);
      if hasHandler {
        AddGenerator(k);
      }
    }

    method DelFinal(k: K)
      modifies this`readyTask
      ensures readyTask == old(readyTask) - {k}
    {
      readyTask := readyTask - {k};
    }

    method DelSwitch(k: K) returns (task: Option<Task>)
      modifies this`readyTask
      ensures readyTask == old(readyTask) - {k}
      ensures task == if k in old(readyTask) then Some(old(readyTask)[k]) else None
    {
      if k in readyTask {
        task := Some(readyTask[k]);
        readyTask := readyTask - {k};
      } else {
        task := None;
        assert readyTask - {k} == readyTask;
      }
    }

    // An entry that is already there stays.
    method AddSwitch(k: K, task: Task)
      modifies this`readyTask
      ensures readyTask == if k in old(readyTask) then old(readyTask) else old(readyTask)[k := task]
    {
      if k !in readyTask {
        readyTask := readyTask[k := task];
      }
    }
  }
}
