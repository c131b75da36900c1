/**
 The channel as a value: a bounded ring, a list of waiting readers and a list of waiting writers,
 changed by one locked section at a time. A `World` adds the history: reads and writes are numbered
 in the order in which they succeed or enqueue.
 */
module ChannelSpec {
  import opened Prelude

  datatype Pending<T> = Pending(no: nat, value: T)

  datatype Chan<T> = Chan(cap: nat, ring: seq<T>, readers: seq<nat>, writers: seq<Pending<T>>)
  {
    // Waiting readers mean nothing to read; waiting writers mean no room.
    ghost predicate Shape() {
      && |ring| <= cap
      && (readers != [] ==> ring == [] && writers == [])
      && (writers != [] ==> |ring| == cap && readers == [])
    }
  }

  // Outcome of a read attempt: the value read, and the writer that was woken.
  datatype ReadOut<T> = ReadOut(chan: Chan<T>, value: Option<T>, woken: Option<nat>)

  // Outcome of a write attempt: whether the value was taken, and the reader that was woken with what it got.
  datatype WriteOut<T> = WriteOut(chan: Chan<T>, ok: bool, woken: Option<Pending<T>>)

  // Move the first waiting writer's value into the ring.
  function AwakeOneWriter<T>(c: Chan<T>): (Chan<T>, Option<nat>) {
    if c.writers == [] then (c, None)
    else
      var w := c.writers[0];
      (c.(writers := c.writers[1..], ring := if |c.ring| < c.cap then c.ring + [w.value] else c.ring), Some(w.no))
  }

  // Take the first waiting writer's value directly.
  function AwakeOneWriterFor<T>(c: Chan<T>): ReadOut<T> {
    if c.writers == [] then ReadOut(c, None, None)
    else ReadOut(c.(writers := c.writers[1..]), Some(c.writers[0].value), Some(c.writers[0].no))
  }

  function TryRead<T>(c: Chan<T>): ReadOut<T> {
    if c.ring != [] then
      var (c', woken) := AwakeOneWriter(c.(ring := c.ring[1..]));
      ReadOut(c', Some(c.ring[0]), woken)
    else AwakeOneWriterFor(c)
  }

  // Hand the oldest ring value to the first waiting reader.
  function AwakeOneReader<T>(c: Chan<T>): (Chan<T>, Option<Pending<T>>)
    requires c.readers != [] ==> c.ring != []
  {
    if c.readers == [] then (c, None)
    else (c.(readers := c.readers[1..], ring := c.ring[1..]), Some(Pending(c.readers[0], c.ring[0])))
  }

  // Hand `v` itself to the first waiting reader.
  function AwakeOneReaderWith<T>(c: Chan<T>, v: T): WriteOut<T> {
    if c.readers == [] then WriteOut(c, false, None)
    else WriteOut(c.(readers := c.readers[1..]), true, Some(Pending(c.readers[0], v)))
  }

  function TryWrite<T>(c: Chan<T>, v: T): WriteOut<T> {
    if |c.ring| < c.cap then
      var (c', woken) := AwakeOneReader(c.(ring := c.ring + [v]));
      WriteOut(c', true, woken)
    else AwakeOneReaderWith(c, v)
  }

  // `Try...` gives up when it cannot proceed; `Await...` joins the wait list instead.
  datatype Event<T> = TryReading | TryWriting(v: T) | AwaitReading | AwaitWriting(v: T)

  datatype World<T> = World(
    chan: Chan<T>,
    readCount: nat,                 // reads numbered so far
    written: seq<T>,                // values of the numbered writes
    delivered: seq<Pending<T>>,     // (read number, value) in order of delivery
    completed: seq<nat>,            // write numbers in order of completion
    suspendedReads: set<nat>,
    suspendedWrites: set<nat>,
    notifiedReads: multiset<nat>,
    notifiedWrites: multiset<nat>)

  function Init<T>(cap: nat): World<T> {
    World(Chan(cap, [], [], []), 0, [], [], [], {}, {}, multiset{}, multiset{})
  }

  function Bag<T>(o: Option<T>): multiset<T> {
    if o.Some? then multiset{o.value} else multiset{}
  }

  function List<T>(o: Option<T>): seq<T> {
    if o.Some? then [o.value] else []
  }

  function ReadStep<T>(w: World<T>, wait: bool): World<T> {
    var out := TryRead(w.chan);
    if out.value.Some? then
      w.(chan := out.chan,
         readCount := w.readCount + 1,
         delivered := w.delivered + [Pending(w.readCount, out.value.value)],
         completed := w.completed + List(out.woken),
         notifiedWrites := w.notifiedWrites + Bag(out.woken))
    else if wait then
      w.(chan := w.chan.(readers := w.chan.readers + [w.readCount]),
         readCount := w.readCount + 1,
         suspendedReads := w.suspendedReads + {w.readCount})
    else w
  }

  function WriteStep<T>(w: World<T>, v: T, wait: bool): World<T> {
    var no := |w.written|;
    var out := TryWrite(w.chan, v);
    if out.ok then
      w.(chan := out.chan,
         written := w.written + [v],
         completed := w.completed + [no],
         delivered := w.delivered + List(out.woken),
         notifiedReads := w.notifiedReads + Bag(if out.woken.Some? then Some(out.woken.value.no) else None))
    else if wait then
      w.(chan := w.chan.(writers := w.chan.writers + [Pending(no, v)]),
         written := w.written + [v],
         suspendedWrites := w.suspendedWrites + {no})
    else w
  }

  function Step<T>(w: World<T>, e: Event<T>): World<T> {
    match e
    case TryReading => ReadStep(w, false)
    case TryWriting(v) => WriteStep(w, v, false)
    case AwaitReading => ReadStep(w, true)
    case AwaitWriting(v) => WriteStep(w, v, true)
  }

  function Run<T>(cap: nat, es: seq<Event<T>>): World<T> {
    if es == [] then Init(cap) else Step(Run(cap, es[..|es| - 1]), es[|es| - 1])
  }

  // The reads delivered so far are exactly the first ones, each with the value of the write of the same number.
  ghost predicate Matched<T>(w: World<T>) {
    && |w.delivered| <= |w.written|
    && forall i :: 0 <= i < |w.delivered| ==> w.delivered[i] == Pending(i, w.written[i])
  }

  ghost predicate WritesInOrder<T>(w: World<T>) {
    forall i :: 0 <= i < |w.completed| ==> w.completed[i] == i
  }

  // A suspended party has been notified once if it is done and not at all otherwise; nobody else is notified.
  ghost predicate NotifiedOnce(notified: multiset<nat>, suspended: set<nat>, done: nat) {
    forall i :: notified[i] == if i in suspended && i < done then 1 else 0
  }

  // How far the counters of the history are apart.
  ghost predicate Counts<T>(w: World<T>) {
    && w.chan.Shape()
    && |w.completed| == |w.delivered| + |w.chan.ring|
    && |w.written| == |w.completed| + |w.chan.writers|
    && w.readCount == |w.delivered| + |w.chan.readers|
  }

  // The ring and the wait lists hold the stretch of the history between the counters.
  ghost predicate Contents<T>(w: World<T>)
    requires Counts(w)
  {
    var d, c := |w.delivered|, |w.completed|;
    && Matched(w) && WritesInOrder(w)
    && (forall i :: 0 <= i < |w.chan.ring| ==> w.chan.ring[i] == w.written[d + i])
    && (forall i :: 0 <= i < |w.chan.writers| ==> w.chan.writers[i] == Pending(c + i, w.written[c + i]))
    && (forall i :: 0 <= i < |w.chan.readers| ==> w.chan.readers[i] == d + i)
  }

  ghost predicate Notices<T>(w: World<T>) {
    var d, c := |w.delivered|, |w.completed|;
    && (forall i :: i in w.suspendedReads ==> i < w.readCount)
    && (forall i :: d <= i < w.readCount ==> i in w.suspendedReads)
    && (forall i :: i in w.suspendedWrites ==> i < |w.written|)
    && (forall i :: c <= i < |w.written| ==> i in w.suspendedWrites)
    && NotifiedOnce(w.notifiedReads, w.suspendedReads, d)
    && NotifiedOnce(w.notifiedWrites, w.suspendedWrites, c)
  }

  ghost predicate Inv<T>(w: World<T>) {
    Counts(w) && Contents(w) && Notices(w)
  }

  lemma RingReadKeepsContents<T>(w: World<T>, wait: bool)
    requires Counts(w) && Contents(w) && w.chan.ring != []
    ensures Counts(ReadStep(w, wait)) && Contents(ReadStep(w, wait))
  {
    var c, w' := w.chan, ReadStep(w, wait);
    if c.writers != [] {
      assert w'.chan.ring == c.ring[1..] + [c.writers[0].value];
      assert w'.chan.writers == c.writers[1..] && w'.chan.readers == c.readers;
      assert w'.completed == w.completed + [c.writers[0].no];
    } else {
      assert w'.chan == c.(ring := c.ring[1..]);
    }
  }

  lemma DirectReadKeepsContents<T>(w: World<T>, wait: bool)
    requires Counts(w) && Contents(w) && w.chan.ring == []
    ensures Counts(ReadStep(w, wait)) && Contents(ReadStep(w, wait))
  {
  }

  lemma ReadKeepsNotices<T>(w: World<T>, wait: bool)
    requires Inv(w)
    ensures Notices(ReadStep(w, wait))
  {
  }

  lemma WriteKeepsContents<T>(w: World<T>, v: T, wait: bool)
    requires Counts(w) && Contents(w)
    ensures Counts(WriteStep(w, v, wait)) && Contents(WriteStep(w, v, wait))
  {
    var c, w' := w.chan, WriteStep(w, v, wait);
    if c.readers != [] {
      assert w'.chan.ring == [] && w'.chan.readers == c.readers[1..];
      assert w'.delivered == w.delivered + [Pending(c.readers[0], v)];
    } else if |c.ring| < c.cap {
      assert w'.chan == c.(ring := c.ring + [v]);
    } else if wait {
      assert w'.chan == c.(writers := c.writers + [Pending(|w.written|, v)]);
    }
  }

  lemma WriteKeepsNotices<T>(w: World<T>, v: T, wait: bool)
    requires Inv(w)
    ensures Notices(WriteStep(w, v, wait))
  {
  }

  lemma ReadKeepsInv<T>(w: World<T>, wait: bool)
    requires Inv(w)
    ensures Inv(ReadStep(w, wait))
  {
    if w.chan.ring != [] {
      RingReadKeepsContents(w, wait);
    } else {
      DirectReadKeepsContents(w, wait);
    }
    ReadKeepsNotices(w, wait);
  }

  lemma WriteKeepsInv<T>(w: World<T>, v: T, wait: bool)
    requires Inv(w)
    ensures Inv(WriteStep(w, v, wait))
  {
    WriteKeepsContents(w, v, wait);
    WriteKeepsNotices(w, v, wait);
  }

  lemma {:induction false} StepKeepsInv<T>(w: World<T>, e: Event<T>)
    requires Inv(w)
    ensures Inv(Step(w, e)) && Step(w, e).chan.cap == w.chan.cap
  {
    match e
    case TryReading => ReadKeepsInv(w, false);
    case TryWriting(v) => WriteKeepsInv(w, v, false);
    case AwaitReading => ReadKeepsInv(w, true);
    case AwaitWriting(v) => WriteKeepsInv(w, v, true);
  }

  lemma {:induction false} RunKeepsInv<T>(cap: nat, es: seq<Event<T>>)
    ensures Inv(Run(cap, es)) && Run(cap, es).chan.cap == cap
  {
    if es != [] {
      RunKeepsInv(cap, es[..|es| - 1]);
      StepKeepsInv(Run(cap, es[..|es| - 1]), es[|es| - 1]);
    }
  }

  lemma CountersInTermsOfHistory<T>(w: World<T>)
    requires Counts(w)
    ensures |w.delivered| == Min(w.readCount, |w.written|)
    ensures |w.completed| == Min(|w.written|, w.readCount + w.chan.cap)
  {
  }

  /**
   The channel over any run and any capacity, 0 included: the i-th read gets the i-th written value,
   min(R, W) reads are delivered, min(W, R + cap) writes are complete, both in order, and a suspended
   party is notified exactly once, when it is done.
   */
  lemma {:induction false} ChannelMatching<T>(cap: nat, es: seq<Event<T>>)
    ensures var w := Run(cap, es);
            && Matched(w) && WritesInOrder(w)
            && |w.delivered| == Min(w.readCount, |w.written|)
            && |w.completed| == Min(|w.written|, w.readCount + cap)
            && NotifiedOnce(w.notifiedReads, w.suspendedReads, |w.delivered|)
            && NotifiedOnce(w.notifiedWrites, w.suspendedWrites, |w.completed|)
  {
    RunKeepsInv(cap, es);
    CountersInTermsOfHistory(Run(cap, es));
  }

  /** Every reachable channel has the shape that the assertions of the wake paths rely on. */
  lemma {:induction false} ShapeInEveryRun<T>(cap: nat, es: seq<Event<T>>)
    ensures Run(cap, es).chan.Shape()
  {
    RunKeepsInv(cap, es);
  }

  // The attempts of a run that succeed: a numbering independent of the channel's own bookkeeping.
  ghost predicate Succeeds<T>(w: World<T>, e: Event<T>) {
    match e
    case TryReading => w.readCount < |w.written|
    case TryWriting(_) => |w.written| < w.readCount + w.chan.cap
    case AwaitReading => true
    case AwaitWriting(_) => true
  }

  /**
   Which calls enter the numbering: a `Try` exactly when the counters leave something to read or room
   to write, an `Await` always. A failed attempt changes nothing at all.
   */
  lemma {:induction false} AttemptSucceedsIff<T>(cap: nat, es: seq<Event<T>>, e: Event<T>)
    ensures var w := Run(cap, es);
            var w' := Run(cap, es + [e]);
            var isRead := e.TryReading? || e.AwaitReading?;
            if Succeeds(w, e) then
              w'.readCount == w.readCount + (if isRead then 1 else 0) &&
              w'.written == w.written + (if isRead then [] else [e.v])
            else w' == w
  {
    RunKeepsInv(cap, es);
    assert (es + [e])[..|es|] == es;
  }
}
