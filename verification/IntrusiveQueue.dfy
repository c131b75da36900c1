/**
 The doubly linked wait queue, on heap nodes that carry their own links. Both link directions
 and the 64-bit element counter are kept; the sequence `elems` is what they stand for.
 */
module IntrusiveQueue {
  import opened Prelude

  class Node {
    var prev: Node?
    var next: Node?

    constructor ()
      ensures prev == null && next == null
    {
      prev, next := null, null;
    }
  }

  // The nodes met by following `next` from `start` until null.
  ghost predicate ForwardChain(start: Node?, s: seq<Node>)
    reads s
  {
    if s == [] then start == null
    else
      && start == s[0]
      && (forall i :: 0 <= i < |s| - 1 ==> s[i].next == s[i + 1])
      && s[|s| - 1].next == null
  }

  // The nodes met by following `prev` from `start` until null.
  ghost predicate BackwardChain(start: Node?, s: seq<Node>)
    reads s
  {
    if s == [] then start == null
    else
      && start == s[0]
      && (forall i :: 0 <= i < |s| - 1 ==> s[i].prev == s[i + 1])
      && s[|s| - 1].prev == null
  }

  function Reverse<T>(s: seq<T>): (r: seq<T>)
    ensures |r| == |s|
    ensures forall i :: 0 <= i < |s| ==> r[i] == s[|s| - 1 - i]
  {
    if s == [] then [] else Reverse(s[1..]) + [s[0]]
  }

  lemma {:induction false} WithoutStranger<T>(s: seq<T>, e: T)
    requires forall i :: 0 <= i < |s| ==> s[i] != e
    ensures Without(s, e) == s
  {
    if s != [] {
      WithoutStranger(s[1..], e);
    }
  }

  lemma {:induction false} WithoutAt<T>(s: seq<T>, k: nat)
    requires NoDuplicates(s) && k < |s|
    ensures Without(s, s[k]) == s[..k] + s[k + 1..]
  {
    if k > 0 {
      WithoutAt(s[1..], k - 1);
      assert s[1..][..k - 1] == s[1..k] && s[1..][k..] == s[k + 1..];
      assert [s[0]] + s[1..k] == s[..k];
    }
  }

  // Both link directions follow the sequence, which repeats no node.
  ghost predicate Chained(s: seq<Node>)
    reads s
  {
    && (forall i {:trigger s[i].prev} :: 0 <= i < |s| ==> s[i].prev == if i == 0 then null else s[i - 1])
    && (forall i {:trigger s[i].next} :: 0 <= i < |s| ==> s[i].next == if i == |s| - 1 then null else s[i + 1])
    && NoDuplicates(s)
  }

  // The neighbours of position k point past it.
  ghost predicate Bridged(s: seq<Node>, k: nat)
    requires k < |s|
    reads s
  {
    && (forall i {:trigger s[i].prev} :: 0 <= i < |s| && i != k ==>
         s[i].prev == if i == 0 || (i == 1 && k == 0) then null else if i == k + 1 then s[i - 2] else s[i - 1])
    && (forall i {:trigger s[i].next} :: 0 <= i < |s| && i != k ==>
         s[i].next == if i == |s| - 1 || (i == |s| - 2 && k == |s| - 1) then null
                      else if i == k - 1 then s[i + 2] else s[i + 1])
  }

  lemma BridgedIsChained(s: seq<Node>, k: nat)
    requires k < |s| && NoDuplicates(s) && Bridged(s, k)
    ensures Chained(s[..k] + s[k + 1..])
  {
  }

  class IntrusiveQueue {
    var count: uint64
    var header: Node?
    var tailer: Node?
    ghost var elems: seq<Node>

    // The links alone: header, tailer, and both directions agree with one duplicate-free sequence.
    ghost predicate LinksValid()
      reads this, elems
    {
      && header == (if elems == [] then null else elems[0])
      && tailer == (if elems == [] then null else elems[|elems| - 1])
      && Chained(elems)
    }

    ghost predicate Valid()
      reads this, elems
    {
      LinksValid() && count == |elems|
    }

    constructor ()
      ensures Valid() && elems == []
    {
      count := 0;
      header, tailer := null, null;
      elems := [];
    }

    function Empty(): bool
      requires LinksValid()
      reads this, elems
      ensures Empty() <==> elems == []
    {
      header == null
    }

    method PushBack(e: Node)
      requires LinksValid() && e !in elems
      modifies this, elems, e
      ensures LinksValid() && elems == old(elems) + [e]
      ensures count == Succ64(old(count))
      ensures old(Valid()) && |elems| < TWO_TO_64 ==> Valid()
    {
      e.prev := tailer;
      e.next := null;
      if header == null {
        header := e;
      }
      if tailer != null {
        tailer.next := e;
      }
      tailer := e;
      count := Succ64(count);
      elems := elems + [e];
    }

    method PushFront(e: Node)
      requires LinksValid() && e !in elems
      modifies this, elems, e
      ensures LinksValid() && elems == [e] + old(elems)
      ensures count == Succ64(old(count))
      ensures old(Valid()) && |elems| < TWO_TO_64 ==> Valid()
    {
      e.prev := null;
      e.next := header;
      if header != null {
        header.prev := e;
      }
      header := e;
      if tailer == null {
        tailer := e;
      }
      count := Succ64(count);
      elems := [e] + elems;
    }

    // Header and tailer once position k is bridged.
    ghost predicate EndsWithout(k: nat)
      requires k < |elems|
      reads this
    {
      && header == (if k > 0 then elems[0] else if |elems| > 1 then elems[1] else null)
      && tailer == (if k < |elems| - 1 then elems[|elems| - 1] else if k > 0 then elems[k - 1] else null)
    }

    // The relinking half of an erase.
    method Bridge(e: Node) returns (ghost k: nat)
      requires LinksValid()
      requires e in elems || (e.prev == null && e.next == null)
      modifies this`header, this`tailer, elems
      ensures e !in elems ==> unchanged(this) && unchanged(elems)
      ensures e in elems ==> k < |elems| && elems[k] == e && Bridged(elems, k) && EndsWithout(k)
    {
      k := 0;
      if e in elems {
        k :| 0 <= k < |elems| && elems[k] == e;
        assert e.prev == if k == 0 then null else elems[k - 1];
        assert e.next == if k == |elems| - 1 then null else elems[k + 1];
      }
      if header == e {
        header := e.next;
      }
      if tailer == e {
        tailer := e.prev;
      }
      if e.next != null {
        e.next.prev := e.prev;
      }
      if e.prev != null {
        e.prev.next := e.next;
      }
    }

    // The bridged node leaves the sequence.
    ghost method Forget(k: nat)
      requires k < |elems| && NoDuplicates(elems) && Bridged(elems, k) && EndsWithout(k)
      modifies this`elems
      ensures LinksValid() && elems == Without(old(elems), old(elems)[k]) && |elems| == |old(elems)| - 1
    {
      BridgedIsChained(elems, k);
      WithoutAt(elems, k);
      elems := elems[..k] + elems[k + 1..];
    }

    // All of an erase but the counter.
    method Unlink(e: Node)
      requires LinksValid()
      requires e in elems || (e.prev == null && e.next == null)
      modifies this`header, this`tailer, this`elems, elems, e
      ensures LinksValid() && elems == Without(old(elems), e)
      ensures e.prev == null && e.next == null
      ensures |elems| == |old(elems)| - if e in old(elems) then 1 else 0
    {
      ghost var k := Bridge(e);
      e.prev := null;
      e.next := null;
      if e in elems {
        Forget(k);
      } else {
        WithoutStranger(elems, e);
      }
    }

    // Erasing a member removes it; erasing an already popped node leaves the sequence, and with it every
    // link, alone. The counter goes down in both cases, so only the first keeps it exact.
    method Erase(e: Node)
      requires LinksValid()
      requires e in elems || (e.prev == null && e.next == null)
      modifies this, elems, e
      ensures LinksValid() && elems == Without(old(elems), e)
      ensures e.prev == null && e.next == null
      ensures count == Pred64(old(count))
      ensures old(Valid()) && e in old(elems) ==> Valid()
    {
      Unlink(e);
      count := Pred64(count);
    }

    method TryPop() returns (node: Node?)
      requires LinksValid()
      modifies this, elems
      ensures LinksValid()
      ensures old(elems) == [] ==> node == null && unchanged(this)
      ensures old(elems) != [] ==>
                node == old(elems)[0] && elems == old(elems)[1..] &&
                node.prev == null && node.next == null && count == Pred64(old(count))
      ensures old(Valid()) ==> Valid()
    {
      if header == null {
        return null;
      }
      node := header;
      header := node.next;
      if header != null {
        header.prev := null;
      }
      if tailer == node {
        assert node.next == null;
        tailer := null;
      }
      node.prev := null;
      node.next := null;
      count := Pred64(count);
      elems := elems[1..];
    }
  }

  /** The sequence determines every link: an operation that keeps it, such as erasing a popped node, changes none. */
  twostate lemma SameElemsSameLinks(q: IntrusiveQueue)
    requires old(q.LinksValid()) && q.LinksValid() && q.elems == old(q.elems)
    ensures q.header == old(q.header) && q.tailer == old(q.tailer)
    ensures forall i :: 0 <= i < |q.elems| ==>
              q.elems[i].prev == old(q.elems[i].prev) && q.elems[i].next == old(q.elems[i].next)
  {
  }

  lemma {:induction false} SameForwardChain(start: Node?, s: seq<Node>, t: seq<Node>)
    requires ForwardChain(start, s) && ForwardChain(start, t)
    ensures s == t
  {
    if s != [] {
      assert ForwardChain(s[0].next, s[1..]);
      assert ForwardChain(s[0].next, t[1..]);
      SameForwardChain(s[0].next, s[1..], t[1..]);
      assert s == [s[0]] + s[1..] && t == [t[0]] + t[1..];
    }
  }

  lemma {:induction false} SameBackwardChain(start: Node?, s: seq<Node>, t: seq<Node>)
    requires BackwardChain(start, s) && BackwardChain(start, t)
    ensures s == t
  {
    if s != [] {
      assert BackwardChain(s[0].prev, s[1..]);
      assert BackwardChain(s[0].prev, t[1..]);
      SameBackwardChain(s[0].prev, s[1..], t[1..]);
      assert s == [s[0]] + s[1..] && t == [t[0]] + t[1..];
    }
  }

  /** Whatever a walk finds: from the header it is the duplicate-free `elems`, from the tailer its mirror image. */
  lemma MirrorImages(q: IntrusiveQueue, forward: seq<Node>, backward: seq<Node>)
    requires q.LinksValid()
    ensures ForwardChain(q.header, q.elems) && BackwardChain(q.tailer, Reverse(q.elems))
    ensures ForwardChain(q.header, forward) <==> forward == q.elems
    ensures BackwardChain(q.tailer, backward) <==> backward == Reverse(q.elems)
    ensures ForwardChain(q.header, forward) ==> NoDuplicates(forward)
  {
    assert ForwardChain(q.header, q.elems);
    assert BackwardChain(q.tailer, Reverse(q.elems));
    if ForwardChain(q.header, forward) {
      SameForwardChain(q.header, forward, q.elems);
    }
    if BackwardChain(q.tailer, backward) {
      SameBackwardChain(q.tailer, backward, Reverse(q.elems));
    }
  }

  /** The counter equals the length after an erase of a node if and only if the node was a member. */
  lemma EraseKeepsCountIff(before: seq<Node>, e: Node, counter: uint64)
    requires NoDuplicates(before) && counter == |before|
    ensures Pred64(counter) == |Without(before, e)| <==> e in before
  {
    if e in before {
      var k :| 0 <= k < |before| && before[k] == e;
      WithoutAt(before, k);
    } else {
      WithoutStranger(before, e);
    }
  }
}
