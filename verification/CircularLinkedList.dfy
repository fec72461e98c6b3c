/** The circular doubly linked list: a sentinel node, links rewired in place, and
    an `erase` that redirects the removed node so that an iterator standing on it
    steps back to the predecessor.  Deleted nodes stay readable in this model, as
    the iterating callers rely on. */
module CircularLinkedLists {
  import opened Sequences

  class NodeData<T> {
    var data: T
    var next: NodeData?<T>
    var prev: NodeData?<T>

    constructor (data: T)
      ensures this.data == data && next == null && prev == null
    {
      this.data := data;
      next, prev := null, null;
    }
  }

  class CircularLinkedList<T> {
    const head: NodeData<T>  // the sentinel; its data is never an element
    var tail: NodeData<T>
    ghost var ring: seq<NodeData<T>>  // the sentinel, then the element nodes in list order
    ghost var Repr: set<object>  // the list, its nodes and the nodes it has deleted
    ghost var items: seq<T>  // the data of the element nodes, in list order

    /** The ring position reached from position k by one `next` step. */
    static function Succ(k: nat, n: nat): nat {
      if k + 1 == n then 0 else k + 1
    }

    /** The ring position reached from position k by one `prev` step. */
    static function Pred(k: nat, n: nat): int {
      if k == 0 then n - 1 else k - 1
    }

    ghost predicate Shape()
      reads this, Repr
    {
      && this in Repr
      && (forall k :: 0 <= k < |ring| ==> ring[k] in Repr)
      && |ring| >= 1
      && ring[0] == head
      && tail == ring[|ring| - 1]
      && |items| == |ring| - 1
      && (forall k {:trigger ring[k].data} :: 1 <= k < |ring| ==> ring[k].data == items[k - 1])
      && forall i, j :: 0 <= i < j < |ring| ==> ring[i] != ring[j]
    }

    /** Fresh: the sentinel has never been linked. */
    ghost predicate IsFresh()
      reads this, head
    {
      |ring| == 1 && head.next == null && head.prev == null
    }

    /** Linked: every ring position points at its two neighbours. A drained list
        is the ring of the sentinel alone, which points at itself. */
    ghost predicate IsLinked()
      reads this, ring
    {
      && (forall k {:trigger ring[k].next} :: 0 <= k < |ring| ==> ring[k].next == ring[Succ(k, |ring|)])
      && (forall k {:trigger ring[k].prev} :: 0 <= k < |ring| ==> ring[k].prev == ring[Pred(k, |ring|)])
    }

    ghost predicate Valid()
      reads this, Repr
    {
      Shape() && (IsFresh() || IsLinked())
    }

    /** The node at ring position k. */
    ghost function At(k: nat): NodeData<T>
      requires k < |ring|
      reads this
    {
      ring[k]
    }

    constructor (unused: T)
      ensures Valid() && IsFresh() && items == [] && fresh(Repr)
    {
      var sentinel := new NodeData<T>(unused);
      head := sentinel;
      tail := sentinel;
      ring := [sentinel];
      Repr := {this, sentinel};
      items := [];
    }

    /** The state that PopFront leaves when it takes the only element: the sentinel
        points at itself, but the tail names a node outside the list. */
    ghost predicate IsStale()
      reads this, Repr
    {
      && {this, head, tail} <= Repr
      && ring == [head] && items == []
      && head.next == head
      && tail != head && tail.next == head
    }

    method PushBack(newData: T)
      requires Valid()
      modifies Repr
      ensures Valid() && IsLinked()
      ensures |ring| == |old(ring)| + 1 && ring[..|old(ring)|] == old(ring)
      ensures fresh(Repr - old(Repr))
      ensures items == old(items) + [newData]
    {
      var newNode := new NodeData<T>(newData);
      PushBackAt(newNode, newData);
    }

    /** push_back with whatever node its `new` answers: a node made before, and deleted
        since, may come back. From a well-formed list every answer is right; behind a
        stale tail only the node that the tail names is. */
    method PushBackAt(newNode: NodeData<T>, newData: T)
      requires Valid() || IsStale()
      requires newNode !in ring
      modifies Repr, newNode
      ensures Repr == old(Repr) + {newNode}
      ensures old(Valid()) || newNode == old(tail) ==>
                Valid() && IsLinked() && ring == old(ring) + [newNode] && items == old(items) + [newData]
      ensures !old(Valid()) && newNode != old(tail) ==>
                IsStale() && tail == newNode && tail.data == newData && tail.prev == old(tail) && head.prev == tail
    {
      ghost var works := Valid() || newNode == tail;
      assert Valid() ==> tail == ring[|ring| - 1] && tail.next == if IsFresh() then null else head;
      LinkBehindTail(newNode, newData);
      Repr := Repr + {newNode};
      if works {
        ring, items := ring + [newNode], items + [newData];
        RelinkedWith(old(ring), old(items), newNode);
      }
    }

    /** The constructor of the node and the statements of push_back: the node goes
        between the sentinel and the tail, or between the sentinel and itself where
        it is the node that the tail names. */
    method LinkBehindTail(newNode: NodeData<T>, newData: T)
      requires newNode != head
      requires tail.next == head || (tail.next == null && tail == head)
      modifies `tail, newNode, head, tail
      ensures tail == newNode && newNode.data == newData
      ensures newNode.next == head && head.prev == newNode
      ensures var before := if newNode == old(tail) then head else old(tail);
              && newNode.prev == before && before.next == newNode && before.data == old(before.data)
              && (before != head ==> before.prev == old(before.prev) && head.next == old(head.next))
    {
      newNode.data, newNode.next, newNode.prev := newData, null, null;
      if tail.next == null {
        newNode.next := head;
        newNode.prev := head;
        head.next := newNode;
        head.prev := newNode;
      } else {
        newNode.next := tail.next;
        newNode.prev := tail;
        tail.next.prev := newNode;
        tail.next := newNode;
      }
      tail := newNode;
    }

    /** A node between the last ring position and the sentinel, with every other
        link in place, makes the longer ring linked. */
    lemma RelinkedWith(was: seq<NodeData<T>>, wasItems: seq<T>, newNode: NodeData<T>)
      requires |was| == |wasItems| + 1 && was[0] == head && tail == newNode && newNode !in was
      requires ring == was + [newNode] && items == wasItems + [newNode.data]
      requires this in Repr && newNode in Repr && forall k :: 0 <= k < |was| ==> was[k] in Repr
      requires forall j, k :: 0 <= j < k < |was| ==> was[j] != was[k]
      requires forall k {:trigger was[k].data} :: 1 <= k < |was| ==> was[k].data == wasItems[k - 1]
      requires newNode.next == head && newNode.prev == was[|was| - 1]
      requires forall k {:trigger was[k].next} :: 0 <= k < |was| ==>
          was[k].next == if k == |was| - 1 then newNode else was[k + 1]
      requires forall k {:trigger was[k].prev} :: 0 <= k < |was| ==>
          was[k].prev == if k == 0 then newNode else was[k - 1]
      ensures Valid() && IsLinked()
    {
      forall k | 0 <= k < |ring|
        ensures ring[k].next == ring[Succ(k, |ring|)] && ring[k].prev == ring[Pred(k, |ring|)]
        ensures k >= 1 ==> ring[k].data == items[k - 1]
      {
        if k < |was| {
          assert ring[k] == was[k];
          assert was[k].next == ring[Succ(k, |ring|)] && was[k].prev == ring[Pred(k, |ring|)];
          assert k >= 1 ==> was[k].data == wasItems[k - 1];
        }
      }
    }

    /** Drops the first element. With exactly one element the tail pointer is not
        moved back to the sentinel, so it keeps naming the deleted node and the
        list is no longer well formed; with any other length it stays so. */
    method PopFront(unchangedOut: T) returns (popped: bool, outData: T)
      requires Valid()
      modifies Repr
      ensures |ring| >= 1
      ensures popped <==> old(items) != []
      ensures popped ==>
                && outData == old(items)[0]
                && ring == [head] + old(ring)[2..]
                && items == old(items)[1..]
      ensures !popped ==> outData == unchangedOut && ring == old(ring) && items == []
      ensures Valid() <==> |old(items)| != 1
      ensures Repr == old(Repr)
      ensures |old(items)| == 1 ==> IsStale() && tail == old(tail) == old(ring)[1] && head.prev == head
    {
      if head.next == null || head == head.next {
        assert ring[0].next == head.next;
        return false, unchangedOut;
      }
      assert ring[0].next == head.next;
      var popNode := head.next;
      assert popNode == ring[1];
      assert ring[1].next == ring[Succ(1, |ring|)];
      head.next := popNode.next;
      popNode.next.prev := head;
      outData := popNode.data;
      popped := true;
      ring := [head] + ring[2..];
      items := items[1..];
    }

    method PopBack(unchangedOut: T) returns (popped: bool, outData: T)
      requires Valid()
      modifies Repr
      ensures Valid() && Repr == old(Repr)
      ensures popped <==> old(items) != []
      ensures popped ==>
                && outData == old(items)[|old(items)| - 1]
                && ring == old(ring)[..|old(ring)| - 1]
                && items == old(items)[..|old(items)| - 1]
      ensures !popped ==> outData == unchangedOut && ring == old(ring) && items == old(items)
    {
      if head == tail {
        return false, unchangedOut;
      }
      ghost var last := |ring| - 1;
      assert ring[last].prev == ring[last - 1] && ring[last].data == items[last - 1];
      var popNode := tail;
      tail.prev.next := head;
      head.prev := tail.prev;
      tail := tail.prev;
      outData := popNode.data;
      popped := true;
      assert forall k {:trigger ring[k].next} :: 0 <= k < last ==>
          ring[k].next == if k == last - 1 then head else ring[Succ(k, |ring|)];
      assert forall k {:trigger ring[k].prev} :: 0 <= k < last ==>
          ring[k].prev == if k == 0 then ring[last - 1] else ring[Pred(k, |ring|)];
      ring, items := Without(ring, last), Without(items, last - 1);
      RelinkedWithout(old(ring), old(items), last);
    }

    /** Removes the node under an iterator. The removed node's `next` afterwards
        names the old predecessor, so `++it` lands there. */
    method Erase(it: NodeData?<T>, ghost i: nat) returns (erased: bool)
      requires Valid()
      requires it != null ==> 1 <= i < |ring| && it == ring[i]
      modifies Repr
      ensures Valid()
      ensures erased <==> it != null
      ensures Repr == old(Repr)
      ensures erased ==>
                && IsLinked()
                && ring == Without(old(ring), i)
                && items == Without(old(items), i - 1)
                && it.next == ring[i - 1] && it.prev == ring[if i == |ring| then 0 else i]
      ensures !erased ==> ring == old(ring) && items == old(items)
    {
      if it == null {
        return false;
      }
      Unlink(it, i);
      ring, items := Without(ring, i), Without(items, i - 1);
      RelinkedWithout(old(ring), old(items), i);
      return true;
    }

    /** The rewiring inside Erase: the neighbours of ring position i point past it,
        the node itself points backwards, and every other link stays. */
    method Unlink(cachedNode: NodeData<T>, ghost i: nat)
      requires Valid() && 1 <= i < |ring| && cachedNode == ring[i]
      modifies this`tail, Repr
      ensures ring == old(ring) && items == old(items) && Repr == old(Repr)
      ensures tail == if i == |ring| - 1 then ring[i - 1] else ring[|ring| - 1]
      ensures cachedNode.next == ring[i - 1] && cachedNode.prev == ring[Succ(i, |ring|)]
      ensures forall k {:trigger ring[k].data} :: 1 <= k < |ring| ==> ring[k].data == items[k - 1]
      ensures forall k {:trigger ring[k].next} :: 0 <= k < |ring| && k != i ==>
          ring[k].next == if k == i - 1 then ring[Succ(i, |ring|)] else ring[Succ(k, |ring|)]
      ensures forall k {:trigger ring[k].prev} :: 0 <= k < |ring| && k != i ==>
          ring[k].prev == if k == Succ(i, |ring|) then ring[i - 1] else ring[Pred(k, |ring|)]
    {
      assert ring[i].next == ring[Succ(i, |ring|)] && ring[i].prev == ring[Pred(i, |ring|)];
      if cachedNode == tail {
        tail := cachedNode.prev;
      }
      var nextNode := cachedNode.next;
      cachedNode.next.prev := cachedNode.prev;
      cachedNode.prev.next := nextNode;
      cachedNode.next := cachedNode.prev;
      cachedNode.prev := nextNode;
    }

    /** Two neighbours of position i that point past it, with every other link in
        place, make the shorter ring linked. */
    lemma RelinkedWithout(was: seq<NodeData<T>>, wasItems: seq<T>, i: nat)
      requires 1 <= i < |was| == |wasItems| + 1
      requires this in Repr && forall k :: 0 <= k < |was| ==> was[k] in Repr
      requires ring == Without(was, i) && items == Without(wasItems, i - 1)
      requires was[0] == head && tail == if i == |was| - 1 then was[i - 1] else was[|was| - 1]
      requires forall j, k :: 0 <= j < k < |was| ==> was[j] != was[k]
      requires forall k {:trigger was[k].data} :: 1 <= k < |was| ==> was[k].data == wasItems[k - 1]
      requires forall k {:trigger was[k].next} :: 0 <= k < |was| && k != i ==>
          was[k].next == if k == i - 1 then was[Succ(i, |was|)] else was[Succ(k, |was|)]
      requires forall k {:trigger was[k].prev} :: 0 <= k < |was| && k != i ==>
          was[k].prev == if k == Succ(i, |was|) then was[i - 1] else was[Pred(k, |was|)]
      ensures Valid() && IsLinked()
    {
      forall k | 0 <= k < |ring|
        ensures ring[k].next == ring[Succ(k, |ring|)] && ring[k].prev == ring[Pred(k, |ring|)]
        ensures k >= 1 ==> ring[k].data == items[k - 1]
      {
        var there := if k < i then k else k + 1;
        assert ring[k] == was[there];
        assert was[there].next == ring[Succ(k, |ring|)];
        assert was[there].prev == ring[Pred(k, |ring|)];
        assert there >= 1 ==> was[there].data == wasItems[there - 1];
      }
    }

    method IsEmpty() returns (empty: bool)
      requires Valid() || IsStale()
      ensures empty <==> items == []
    {
      assert head.next == ring[0].next;
      empty := head.next == null || head.next == head;
    }

    /** The first node, or the sentinel when drained; the null link of a fresh list. */
    method Begin() returns (it: NodeData?<T>)
      requires Valid()
      ensures it == if IsLinked() then ring[Succ(0, |ring|)] else null
    {
      it := head.next;
      assert it == ring[0].next;
    }

    /** One past the last node: the sentinel, or the null link of a fresh list. */
    method End() returns (it: NodeData?<T>)
      requires Valid()
      ensures it == if IsLinked() then head else null
    {
      it := tail.next;
    }

    // -------------------------------------------------------- traversals

    /** The node reached from the sentinel by k `next` steps. */
    ghost function Forward(k: nat): (n: NodeData?<T>)
      requires Valid() && IsLinked()
      reads this, Repr
      ensures n != null && n in ring
    {
      if k == 0 then ring[0] else Forward(k - 1).next
    }

    /** The node reached from the sentinel by k `prev` steps. */
    ghost function Backward(k: nat): (n: NodeData?<T>)
      requires Valid() && IsLinked()
      reads this, Repr
      ensures n != null && n in ring
    {
      if k == 0 then ring[0] else Backward(k - 1).prev
    }

    lemma {:induction false} ForwardAt(k: nat)
      requires Valid() && IsLinked() && k <= |ring|
      ensures Forward(k) == if k == |ring| then head else ring[k]
    {
      if k > 0 {
        ForwardAt(k - 1);
        assert ring[k - 1].next == ring[Succ(k - 1, |ring|)];
      }
    }

    lemma {:induction false} BackwardAt(k: nat)
      requires Valid() && IsLinked() && k <= |ring|
      ensures Backward(k) == if k == 0 then head else ring[|ring| - k]
    {
      if k > 1 {
        BackwardAt(k - 1);
        assert ring[|ring| - (k - 1)].prev == ring[Pred(|ring| - (k - 1), |ring|)];
      }
    }

    /** Walking forward from the sentinel visits the elements in order, walking
        backward visits them in reverse, and both return to the sentinel after
        exactly one round. */
    lemma TraversalsMirror(k: nat)
      requires Valid() && IsLinked() && 1 <= k <= |ring|
      ensures k < |ring| ==>
                && Forward(k) == ring[k]
                && Backward(|ring| - k) == ring[k]
                && ring[k] != head
      ensures k == |ring| ==> Forward(k) == head && Backward(k) == head
    {
      ForwardAt(k);
      BackwardAt(|ring|);
      if k < |ring| {
        BackwardAt(|ring| - k);
      }
    }
  }

  /** What the stale tail of PopFront costs: after the only element was popped from the
      front, the next push works exactly when its `new` hands the deleted node back.
      With any other node the list still answers that it is empty. */
  method PushAfterStalePop<T>(list: CircularLinkedList<T>, newNode: NodeData<T>, unchangedOut: T, second: T)
    returns (empty: bool)
    requires list.Valid() && |list.items| == 1 && newNode != list.head
    modifies list.Repr, newNode
    ensures empty <==> newNode != old(list.tail)
    ensures newNode == old(list.tail) ==> list.Valid() && list.items == [second]
    ensures newNode != old(list.tail) ==> list.IsStale() && list.tail == newNode
  {
    var popped, out := list.PopFront(unchangedOut);
    list.PushBackAt(newNode, second);
    empty := list.IsEmpty();
  }
}
