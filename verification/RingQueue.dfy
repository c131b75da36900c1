/**
 The circular buffer under the channel. Indices and sizes have 32 bits and every intermediate
 sum wraps. A slot holds an optional value: popping an empty slot would throw in the program,
 so the invariant has to show that every slot between the two indices is full.
 */
module RingQueue {
  import opened Prelude

  lemma SuccessorModulo(a: nat, n: nat)
    requires a < n
    ensures (a + 1) % n == if a == n - 1 then 0 else a + 1
  {
  }

  class RingQueue<T> {
    const bufferPtr: array<Option<T>>
    const bufferSize: uint32
    var writeIndex: uint32
    var readIndex: uint32
    // The queue this object stands for, oldest value first.
    ghost var contents: seq<T>

    // The slot of the i-th oldest value.
    ghost function Slot(i: nat): int
      reads this
    {
      if readIndex + i < bufferSize then readIndex + i else readIndex + i - bufferSize
    }

    ghost predicate Valid()
      reads this, bufferPtr
    {
      && bufferPtr.Length == bufferSize
      && writeIndex < bufferSize && readIndex < bufferSize
      && |contents| < bufferSize
      && writeIndex == Slot(|contents|)
      && forall i :: 0 <= i < |contents| ==> bufferPtr[Slot(i)] == Some(contents[i])
    }

    constructor (sz: nat)
      requires sz < TWO_TO_32 - 1
      ensures Valid() && fresh(bufferPtr)
      ensures contents == [] && Capacity() == sz
    {
      bufferPtr := new Option<T>[sz + 1](_ => None);
      bufferSize := Wrap32(sz + 1);
      writeIndex, readIndex := 0, 0;
      contents := [];
    }

    function Capacity(): (c: int)
      reads this
      ensures bufferSize > 0 ==> 0 <= c < TWO_TO_32 - 1
    {
      bufferSize - 1
    }

    // The sum inside the remainder never reaches 2^32, so the result is the true successor.
    function NextIndex(count: uint32): (r: uint32)
      requires count < bufferSize
      reads this
      ensures r < bufferSize
      ensures r == (if count == bufferSize - 1 then 0 else count + 1)
    {
      SuccessorModulo(count, bufferSize);
      Wrap32(Wrap32(count + 1) % bufferSize)
    }

    // Exact although `bufferSize + writeIndex` may wrap.
    function Size(): (n: uint32)
      requires Valid()
      reads this, bufferPtr
      ensures n == |contents|
    {
      if writeIndex >= readIndex then writeIndex - readIndex
      else Wrap32(Wrap32(bufferSize + writeIndex) - readIndex)
    }

    predicate Empty()
      requires Valid()
      reads this, bufferPtr
      ensures Empty() <==> contents == []
    {
      writeIndex == readIndex
    }

    predicate Full()
      requires Valid()
      reads this, bufferPtr
      ensures Full() <==> |contents| == Capacity()
    {
      NextIndex(writeIndex) == readIndex
    }

    method TryPush(value: T) returns (ok: bool)
      requires Valid()
      modifies this`writeIndex, this`contents, bufferPtr
      ensures Valid()
      ensures ok <==> |old(contents)| < Capacity()
      ensures ok ==> contents == old(contents) + [value]
      ensures !ok ==> unchanged(this) && unchanged(bufferPtr)
    {
      var nextWriteIndex := NextIndex(writeIndex);
      if nextWriteIndex == readIndex {
        return false;
      }
      bufferPtr[writeIndex] := Some(value);
      writeIndex := nextWriteIndex;
      contents := contents + [value];
      return true;
    }

    method TryPop() returns (value: Option<T>)
      requires Valid()
      modifies this`readIndex, this`contents, bufferPtr
      ensures Valid()
      ensures value.Some? <==> old(contents) != []
      ensures value.Some? ==> value.value == old(contents)[0] && contents == old(contents)[1..]
      ensures value.None? ==> unchanged(this) && unchanged(bufferPtr)
    {
      if readIndex == writeIndex {
        return None;
      }
      assert bufferPtr[Slot(0)] == Some(contents[0]);
      value := bufferPtr[readIndex];
      bufferPtr[readIndex] := None;
      readIndex := NextIndex(readIndex);
      contents := contents[1..];
    }
  }
}
