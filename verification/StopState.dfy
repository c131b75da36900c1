/**
 The stop state object: the packed word and the list of callbacks, whose back links point at the pointer
 that leads to a node, be it the head or the `next` of another node. Each method is a locked section,
 entered with the lock free and left with it free.
 */
module StopState {
  import opened Prelude
  import opened StopWord

  // What a back link points at.
  datatype Slot = NoSlot | HeadSlot | NextOf(node: Callback)

  class Callback {
    var next: Callback?
    var prev: Slot

    constructor ()
      ensures next == null && prev == NoSlot
    {
      next, prev := null, NoSlot;
    }
  }

  class StopState {
    var word: uint64
    var head: Callback?
    ghost var list: seq<Callback>
    ghost var view: Word

    ghost predicate Linked()
      reads this, list
    {
      && head == (if list == [] then null else list[0])
      && (forall i {:trigger list[i].prev} :: 0 <= i < |list| ==>
           list[i].prev == if i == 0 then HeadSlot else NextOf(list[i - 1]))
      && (forall i {:trigger list[i].next} :: 0 <= i < |list| ==>
           list[i].next == if i == |list| - 1 then null else list[i + 1])
      && NoDuplicates(list)
    }

    ghost predicate Valid()
      reads this, list
    {
      Linked() && InRange(view) && !view.locked && word == Encode(view)
    }

    constructor ()
      ensures Valid() && list == [] && view == Word(false, false, 0, 1)
    {
      word := SOURCE;
      head := null;
      list := [];
      view := Word(false, false, 0, 1);
    }

    ghost function IndexOf(cb: Callback): (k: nat)
      requires cb in list
      reads this
      ensures k < |list| && list[k] == cb
    {
      var k :| 0 <= k < |list| && list[k] == cb; k
    }

    // One atomic update of the word.
    method Update(op: Op)
      requires InRange(view) && word == Encode(view)
      requires Allowed(view, op) && InRange(Apply(view, op))
      modifies this`word, this`view
      ensures view == Apply(old(view), op) && word == Encode(view)
    {
      RawFollowsWord(view, op);
      word := ApplyRaw(word, op);
      view := Apply(view, op);
    }

    method LinkFront(cb: Callback)
      requires Linked() && cb !in list
      modifies this`head, this`list, list, cb
      ensures Linked() && list == [cb] + old(list)
    {
      cb.next := head;
      if cb.next != null {
        cb.next.prev := NextOf(cb);
      }
      cb.prev := HeadSlot;
      head := cb;
      list := [cb] + list;
    }

    method UnlinkNode(cb: Callback)
      requires Linked() && cb in list
      modifies this`head, this`list, list
      ensures Linked() && list == old(list)[..old(IndexOf(cb))] + old(list)[old(IndexOf(cb)) + 1..]
    {
      ghost var k := IndexOf(cb);
      assert cb.prev == if k == 0 then HeadSlot else NextOf(list[k - 1]);
      assert cb.next == if k == |list| - 1 then null else list[k + 1];
      match cb.prev {
        case HeadSlot => head := cb.next;
        case NextOf(node) => node.next := cb.next;
        case NoSlot => assert false;
      }
      if cb.next != null {
        cb.next.prev := cb.prev;
      }
      ghost var was := list;
      list := list[..k] + list[k + 1..];
      assert forall i :: 0 <= i < |list| ==> list[i] == was[if i < k then i else i + 1];
    }

    /**
     `try_add_callback`: with a stop requested the callback is to run at once; without a stop and without
     sources it is dropped; otherwise it is linked at the front, and keeps a token if asked to.
     */
    method TryAddCallback(cb: Callback, increment: bool) returns (linked: bool, runNow: bool)
      requires Valid() && cb !in list
      requires increment ==> view.tokens + 1 < COUNT_LIMIT
      modifies this, list, cb
      ensures Valid()
      ensures runNow <==> old(view).stop
      ensures linked <==> !old(view).stop && old(view).sources > 0
      ensures linked ==>
                && list == [cb] + old(list)
                && view == old(view).(tokens := old(view).tokens + (if increment then 1 else 0))
      ensures !linked ==> unchanged(this) && unchanged(list) && unchanged(cb)
    {
      DecodeEncode(view);
      if IsStopRequested(word) {
        return false, true;
      }
      RequestableBySources(view);
      if !IsStopRequestable(word) {
        return false, false;
      }
      Update(Lock);
      LinkFront(cb);
      Update(if increment then UnlockAddToken else Unlock);
      return true, false;
    }

    /** The locked half of `remove_callback`: a callback still in the list leaves it and gives its token back. */
    method RemoveIfLinked(cb: Callback) returns (removed: bool)
      requires Valid() && view.tokens > 0
      requires cb.prev != NoSlot <==> cb in list
      modifies this, list
      ensures Valid()
      ensures removed <==> cb in old(list)
      ensures removed ==>
                list == old(list)[..old(IndexOf(cb))] + old(list)[old(IndexOf(cb)) + 1..] &&
                view == old(view).(tokens := old(view).tokens - 1)
      ensures !removed ==> list == old(list) && view == old(view) && unchanged(list)
    {
      Update(Lock);
      if cb.prev != NoSlot {
        UnlinkNode(cb);
        Update(UnlockDropToken);
        return true;
      }
      Update(Unlock);
      return false;
    }

    /** The first locked section of `request_stop`: only the first call gets past it. */
    method BeginStop() returns (won: bool)
      requires Valid()
      modifies this`word, this`view
      ensures won <==> !old(view).stop
      ensures won ==> view == old(view).(stop := true, locked := true) && word == Encode(view)
      ensures !won ==> unchanged(this)
    {
      DecodeEncode(view);
      if IsStopRequested(word) {
        return false;
      }
      Update(LockAndStop);
      return true;
    }

    /** One turn of the loop of `request_stop`, up to its unlock: take the first callback, if there is one. */
    method PopFront() returns (cb: Callback?, anyMore: bool)
      requires Linked() && InRange(view) && view.locked && word == Encode(view)
      modifies this, list
      ensures Valid() && view == old(view).(locked := false)
      ensures cb == null <==> old(list) == []
      ensures cb == null ==> list == []
      ensures cb != null ==> cb == old(list)[0] && list == old(list)[1..] && cb.prev == NoSlot
      ensures anyMore <==> list != []
    {
      cb, anyMore := head, false;
      if cb != null {
        head := cb.next;
        anyMore := head != null;
        if anyMore {
          head.prev := HeadSlot;
        }
        cb.prev := NoSlot;
        list := list[1..];
      }
      Update(Unlock);
    }
  }

  lemma {:induction false} RequestableBySources(x: Word)
    requires InRange(x)
    ensures 0 <= Encode(x) < TWO_TO_64
    ensures IsStopRequestable(Encode(x)) <==> x.stop || x.sources > 0
  {
    DecodeEncode(x);
  }
}
