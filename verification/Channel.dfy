/**
 The channel object: a real ring buffer, and wait lists of awaiter states through whose `value` fields
 the wake paths read and write. Every method is one locked section and is tied to `ChannelSpec` by the
 ghost field `model`.
 */
module Channel {
  import opened Prelude
  import RingQueue
  import opened ChannelSpec

  // A suspended read (`value` is written by whoever wakes it) or write (`value` is taken by whoever wakes it).
  class AwaiterState<T> {
    const no: nat
    var value: Option<T>
    var enqueued: nat   // how often the scheduler was asked to resume it

    constructor (no: nat, value: Option<T>)
      ensures this.no == no && this.value == value && enqueued == 0
    {
      this.no, this.value, enqueued := no, value, 0;
    }

    method OnNotify()
      modifies this`enqueued
      ensures enqueued == old(enqueued) + 1
    {
      enqueued := enqueued + 1;
    }
  }

  // The list `states` shows the read numbers `nos`; none of them has been served.
  ghost predicate ShowsReaders<T>(states: seq<AwaiterState<T>>, nos: seq<nat>)
    reads states
  {
    && |states| == |nos| && NoDuplicates(states)
    && forall i :: 0 <= i < |states| ==> states[i].no == nos[i] && states[i].value == None && states[i].enqueued == 0
  }

  ghost predicate ShowsWriters<T>(states: seq<AwaiterState<T>>, pending: seq<Pending<T>>)
    reads states
  {
    && |states| == |pending| && NoDuplicates(states)
    && forall i :: 0 <= i < |states| ==>
         states[i].no == pending[i].no && states[i].value == Some(pending[i].value) && states[i].enqueued == 0
  }

  ghost predicate Apart<T>(a: seq<AwaiterState<T>>, b: seq<AwaiterState<T>>) {
    forall i, j :: 0 <= i < |a| && 0 <= j < |b| ==> a[i] != b[j]
  }

  class Channel<T> {
    const values: RingQueue.RingQueue<T>
    var readAwakes: seq<AwaiterState<T>>
    var writeAwakes: seq<AwaiterState<T>>
    ghost var model: Chan<T>

    // The object shows its model.
    ghost predicate Shows()
      reads this, values, values.bufferPtr, readAwakes, writeAwakes
    {
      && values.Valid()
      && values.contents == model.ring
      && values.Capacity() == model.cap
      && ShowsReaders(readAwakes, model.readers)
      && ShowsWriters(writeAwakes, model.writers)
      && Apart(readAwakes, writeAwakes)
    }

    // What holds whenever the lock is free.
    ghost predicate Valid()
      reads this, values, values.bufferPtr, readAwakes, writeAwakes
    {
      Shows() && model.Shape()
    }

    constructor (cacheSize: nat)
      requires cacheSize < TWO_TO_32 - 1
      ensures Valid() && fresh(values) && fresh(values.bufferPtr)
      ensures model == Chan(cacheSize, [], [], [])
    {
      values := new RingQueue.RingQueue(cacheSize);
      readAwakes, writeAwakes := [], [];
      model := Chan(cacheSize, [], [], []);
    }

    // A reader leaves the list with `v` in its value and one request to resume it.
    twostate predicate ServedReader(s: AwaiterState<T>, v: T)
      reads s
    {
      s.value == Some(v) && s.enqueued == old(s.enqueued) + 1
    }

    twostate predicate ServedWriter(s: AwaiterState<T>)
      reads s
    {
      s.value == old(s.value) && s.enqueued == old(s.enqueued) + 1
    }

    method TryPopReader() returns (state: AwaiterState?<T>)
      requires Shows()
      modifies this`readAwakes, this`model
      ensures Shows()
      ensures if old(readAwakes) == [] then state == null && unchanged(this)
              else state == old(readAwakes)[0] && readAwakes == old(readAwakes)[1..] &&
                   model == old(model).(readers := old(model).readers[1..])
    {
      if readAwakes == [] {
        return null;
      }
      state := readAwakes[0];
      readAwakes := readAwakes[1..];
      model := model.(readers := model.readers[1..]);
    }

    method TryPopWriter() returns (state: AwaiterState?<T>)
      requires Shows()
      modifies this`writeAwakes, this`model
      ensures Shows()
      ensures if old(writeAwakes) == [] then state == null && unchanged(this)
              else state == old(writeAwakes)[0] && writeAwakes == old(writeAwakes)[1..] &&
                   model == old(model).(writers := old(model).writers[1..])
    {
      if writeAwakes == [] {
        return null;
      }
      state := writeAwakes[0];
      writeAwakes := writeAwakes[1..];
      model := model.(writers := model.writers[1..]);
    }

    method AwakeOneReader()
      requires Shows() && (model.readers != [] ==> model.ring != [])
      modifies this`readAwakes, this`model, values, values.bufferPtr, readAwakes
      ensures Shows() && model == ChannelSpec.AwakeOneReader(old(model)).0
      ensures writeAwakes == old(writeAwakes)
      ensures old(readAwakes) != [] ==>
                readAwakes == old(readAwakes)[1..] && ServedReader(old(readAwakes[0]), old(model.ring[0]))
      ensures old(readAwakes) == [] ==> unchanged(this) && unchanged(values) && unchanged(values.bufferPtr)
    {
      var state := TryPopReader();
      if state != null {
        assert !values.Empty();
        var popped := values.TryPop();
        state.value := popped;
        state.OnNotify();
        model := model.(ring := model.ring[1..]);
      }
    }

    method AwakeOneReaderWith(val: T) returns (ok: bool)
      requires Shows()
      modifies this`readAwakes, this`model, readAwakes
      ensures Shows() && writeAwakes == old(writeAwakes)
      ensures var out := ChannelSpec.AwakeOneReaderWith(old(model), val); ok == out.ok && model == out.chan
      ensures ok ==> readAwakes == old(readAwakes)[1..] && ServedReader(old(readAwakes[0]), val)
      ensures !ok ==> unchanged(this)
    {
      var state := TryPopReader();
      if state != null {
        state.value := Some(val);
        state.OnNotify();
        return true;
      }
      return false;
    }

    method AwakeOneWriter()
      requires Shows() && (model.writers != [] ==> |model.ring| < model.cap)
      modifies this`writeAwakes, this`model, values, values.bufferPtr, writeAwakes
      ensures Shows() && model == ChannelSpec.AwakeOneWriter(old(model)).0
      ensures readAwakes == old(readAwakes)
      ensures old(writeAwakes) != [] ==>
                writeAwakes == old(writeAwakes)[1..] && ServedWriter(old(writeAwakes[0]))
      ensures old(writeAwakes) == [] ==> unchanged(this) && unchanged(values) && unchanged(values.bufferPtr)
    {
      var state := TryPopWriter();
      if state != null {
        var ret := values.TryPush(state.value.value);
        assert ret;
        model := model.(ring := model.ring + [state.value.value]);
        state.OnNotify();
      }
    }

    method AwakeOneWriterFor() returns (val: Option<T>)
      requires Shows()
      modifies this`writeAwakes, this`model, writeAwakes
      ensures Shows() && readAwakes == old(readAwakes)
      ensures var out := ChannelSpec.AwakeOneWriterFor(old(model)); val == out.value && model == out.chan
      ensures val.Some? ==> writeAwakes == old(writeAwakes)[1..] && ServedWriter(old(writeAwakes[0]))
      ensures val.None? ==> unchanged(this)
    {
      var writer := TryPopWriter();
      if writer != null {
        val := writer.value;
        writer.OnNotify();
        return val;
      }
      return None;
    }

    /** A read attempt under the lock. If it wakes a writer, it is the one that waited longest. */
    method TryReadNolock() returns (val: Option<T>)
      requires Valid()
      modifies this`writeAwakes, this`model, values, values.bufferPtr, writeAwakes
      ensures Valid() && readAwakes == old(readAwakes)
      ensures var out := TryRead(old(model));
              && val == out.value && model == out.chan
              && (out.woken.Some? ==> ServedWriter(old(writeAwakes)[0]) && old(writeAwakes[0].no) == out.woken.value)
      ensures writeAwakes == if TryRead(old(model)).woken.Some? then old(writeAwakes)[1..] else old(writeAwakes)
      ensures val.None? ==> unchanged(this) && unchanged(values) && unchanged(values.bufferPtr)
    {
      val := values.TryPop();
      if val.Some? {
        model := model.(ring := model.ring[1..]);
        AwakeOneWriter();
        return val;
      }
      val := AwakeOneWriterFor();
    }

    /** A write attempt under the lock. If it wakes a reader, that one gets the value due to it. */
    method TryWriteNolock(val: T) returns (ok: bool)
      requires Valid()
      modifies this`readAwakes, this`model, values, values.bufferPtr, readAwakes
      ensures Valid() && writeAwakes == old(writeAwakes)
      ensures var out := TryWrite(old(model), val);
              && ok == out.ok && model == out.chan
              && (out.woken.Some? ==>
                   ServedReader(old(readAwakes)[0], out.woken.value.value) &&
                   old(readAwakes[0].no) == out.woken.value.no)
      ensures readAwakes == if TryWrite(old(model), val).woken.Some? then old(readAwakes)[1..] else old(readAwakes)
      ensures !ok ==> unchanged(this) && unchanged(values) && unchanged(values.bufferPtr)
    {
      var pushed := values.TryPush(val);
      if pushed {
        model := model.(ring := model.ring + [val]);
        AwakeOneReader();
        return true;
      }
      ok := AwakeOneReaderWith(val);
    }

    /** `read_awaiter::await_suspend`: read at once, or leave a state for read `no` at the end of the list. */
    method AwaitSuspendRead(no: nat) returns (val: Option<T>, state: AwaiterState?<T>)
      requires Valid()
      modifies this, values, values.bufferPtr, writeAwakes
      ensures Valid()
      ensures val == TryRead(old(model)).value && (state == null <==> val.Some?)
      ensures TryRead(old(model)).woken.Some? ==> ServedWriter(old(writeAwakes)[0])
      ensures model == if val.Some? then TryRead(old(model)).chan
                       else old(model).(readers := old(model).readers + [no])
      ensures state != null ==> fresh(state) && state.no == no && readAwakes == old(readAwakes) + [state]
    {
      val := TryReadNolock();
      if val.Some? {
        return val, null;
      }
      state := new AwaiterState(no, None);
      readAwakes := readAwakes + [state];
      model := model.(readers := model.readers + [no]);
    }

    method AwaitSuspendWrite(no: nat, val: T) returns (ok: bool, state: AwaiterState?<T>)
      requires Valid()
      modifies this, values, values.bufferPtr, readAwakes
      ensures Valid()
      ensures ok == TryWrite(old(model), val).ok && (state == null <==> ok)
      ensures TryWrite(old(model), val).woken.Some? ==>
                ServedReader(old(readAwakes)[0], TryWrite(old(model), val).woken.value.value)
      ensures model == if ok then TryWrite(old(model), val).chan
                       else old(model).(writers := old(model).writers + [Pending(no, val)])
      ensures state != null ==> fresh(state) && state.no == no && writeAwakes == old(writeAwakes) + [state]
    {
      ok := TryWriteNolock(val);
      if ok {
        return true, null;
      }
      state := new AwaiterState(no, Some(val));
      writeAwakes := writeAwakes + [state];
      model := model.(writers := model.writers + [Pending(no, val)]);
    }
  }
}
