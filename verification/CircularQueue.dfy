/** The bounded ring queue: one array, a head that trails the first stored
    element by one slot, and a tail on the last stored element.  One slot always
    stays unused, so a ring of length L holds at most L - 1 elements. */
module CircularQueues {

  /** The three fields of the ring, as a value. */
  datatype Ring<T> = Ring(slots: seq<T>, head: nat, tail: nat)

  ghost predicate WellFormed<T>(r: Ring<T>) {
    && |r.slots| >= 1
    && r.head < |r.slots|
    && r.tail < |r.slots|
  }

  /** The slot after slot i. */
  function After(i: nat, length: nat): nat
    requires length >= 1
  {
    (i + 1) % length
  }

  lemma AfterWraps(i: nat, length: nat)
    requires i < length
    ensures After(i, length) == if i + 1 == length then 0 else i + 1
  {
  }

  /** How many steps lead from slot `from` to slot `to`. */
  function Distance(from: nat, to: nat, length: nat): nat
    requires from < length && to < length
  {
    if from <= to then to - from else to + length - from
  }

  /** The elements from the slot after `head` up to `tail`. */
  ghost function Collect<T>(slots: seq<T>, head: nat, tail: nat): (s: seq<T>)
    requires head < |slots| && tail < |slots|
    ensures |s| == Distance(head, tail, |slots|)
    decreases Distance(head, tail, |slots|)
  {
    AfterWraps(head, |slots|);
    if head == tail then []
    else [slots[After(head, |slots|)]] + Collect(slots, After(head, |slots|), tail)
  }

  /** What the ring stores, oldest first. */
  ghost function Contents<T>(r: Ring<T>): (s: seq<T>)
    requires WellFormed(r)
    ensures |s| == Distance(r.head, r.tail, |r.slots|)
  {
    Collect(r.slots, r.head, r.tail)
  }

  predicate IsFull<T>(r: Ring<T>)
    requires |r.slots| >= 1
  {
    After(r.tail, |r.slots|) == r.head
  }

  function RingPush<T>(r: Ring<T>, x: T): Ring<T>
    requires WellFormed(r)
  {
    var at := After(r.tail, |r.slots|);
    if at == r.head then r else Ring(r.slots[at := x], r.head, at)
  }

  function RingPop<T>(r: Ring<T>): Ring<T>
    requires WellFormed(r)
  {
    if r.head == r.tail then r else r.(head := After(r.head, |r.slots|))
  }

  lemma {:induction false} CollectExtends<T>(slots: seq<T>, head: nat, tail: nat, x: T)
    requires head < |slots| && tail < |slots| && After(tail, |slots|) != head
    ensures var at := After(tail, |slots|);
            Collect(slots[at := x], head, at) == Collect(slots, head, tail) + [x]
    decreases Distance(head, tail, |slots|)
  {
    AfterWraps(head, |slots|);
    AfterWraps(tail, |slots|);
    if head == tail {
      assert Collect(slots[After(head, |slots|) := x], After(head, |slots|), After(head, |slots|)) == [];
    } else {
      CollectExtends(slots, After(head, |slots|), tail, x);
    }
  }

  /** A push appends while fewer than L - 1 elements are held, and otherwise
      changes nothing. */
  lemma PushAppends<T>(r: Ring<T>, x: T)
    requires WellFormed(r)
    ensures WellFormed(RingPush(r, x))
    ensures IsFull(r) <==> |Contents(r)| == |r.slots| - 1
    ensures |Contents(r)| <= |r.slots| - 1
    ensures |Contents(r)| < |r.slots| - 1 ==> Contents(RingPush(r, x)) == Contents(r) + [x]
    ensures |Contents(r)| == |r.slots| - 1 ==> RingPush(r, x) == r
  {
    AfterWraps(r.tail, |r.slots|);
    if After(r.tail, |r.slots|) != r.head {
      CollectExtends(r.slots, r.head, r.tail, x);
    }
  }

  /** A pop takes the oldest element, and does nothing on an empty ring. */
  lemma PopTakesOldest<T>(r: Ring<T>)
    requires WellFormed(r)
    ensures WellFormed(RingPop(r))
    ensures r.head == r.tail <==> Contents(r) == []
    ensures Contents(r) != [] ==>
              && r.slots[After(r.head, |r.slots|)] == Contents(r)[0]
              && Contents(RingPop(r)) == Contents(r)[1..]
    ensures Contents(r) == [] ==> RingPop(r) == r
  {
  }

  // ---------------------------------------------------------------- runs

  datatype Call<T> = Push(x: T) | Pop

  /** What a run of calls leaves: the ring, the elements whose push was
      accepted and the elements that pops handed out, both in order. */
  datatype Trace<T> = Trace(ring: Ring<T>, accepted: seq<T>, popped: seq<T>)

  ghost function Step<T>(t: Trace<T>, call: Call<T>): (t': Trace<T>)
    requires WellFormed(t.ring)
    ensures WellFormed(t'.ring)
  {
    match call
    case Push(x) =>
      PushAppends(t.ring, x);
      Trace(RingPush(t.ring, x), if IsFull(t.ring) then t.accepted else t.accepted + [x], t.popped)
    case Pop =>
      PopTakesOldest(t.ring);
      if t.ring.head == t.ring.tail then t
      else Trace(RingPop(t.ring), t.accepted,
                 t.popped + [t.ring.slots[After(t.ring.head, |t.ring.slots|)]])
  }

  ghost function Run<T>(r: Ring<T>, calls: seq<Call<T>>): (t: Trace<T>)
    requires WellFormed(r)
    ensures WellFormed(t.ring)
  {
    if calls == [] then Trace(r, [], [])
    else Step(Run(r, calls[..|calls| - 1]), calls[|calls| - 1])
  }

  /** The reference: a plain list that refuses a push at its capacity. */
  datatype Fifo<T> = Fifo(held: seq<T>, accepted: seq<T>, popped: seq<T>)

  ghost function FifoStep<T>(capacity: nat, f: Fifo<T>, call: Call<T>): Fifo<T> {
    match call
    case Push(x) =>
      if |f.held| >= capacity then f else Fifo(f.held + [x], f.accepted + [x], f.popped)
    case Pop =>
      if f.held == [] then f else Fifo(f.held[1..], f.accepted, f.popped + [f.held[0]])
  }

  ghost function FifoRun<T>(capacity: nat, calls: seq<Call<T>>): Fifo<T> {
    if calls == [] then Fifo([], [], [])
    else FifoStep(capacity, FifoRun(capacity, calls[..|calls| - 1]), calls[|calls| - 1])
  }

  lemma StepIsFifoStep<T>(t: Trace<T>, call: Call<T>)
    requires WellFormed(t.ring)
    ensures var t' := Step(t, call);
            && |t'.ring.slots| == |t.ring.slots|
            && Fifo(Contents(t'.ring), t'.accepted, t'.popped)
               == FifoStep(|t.ring.slots| - 1, Fifo(Contents(t.ring), t.accepted, t.popped), call)
  {
    match call
    case Push(x) => PushAppends(t.ring, x);
    case Pop => PopTakesOldest(t.ring);
  }

  /** Every run of the ring is a run of the list of capacity L - 1, and the
      accepted elements are the popped ones followed by those still held. */
  lemma {:induction false} RunIsBoundedFifo<T>(r: Ring<T>, calls: seq<Call<T>>)
    requires WellFormed(r) && r.head == r.tail
    ensures var t := Run(r, calls);
            && |t.ring.slots| == |r.slots|
            && Fifo(Contents(t.ring), t.accepted, t.popped) == FifoRun(|r.slots| - 1, calls)
            && t.accepted == t.popped + Contents(t.ring)
  {
    if calls != [] {
      var before := Run(r, calls[..|calls| - 1]);
      RunIsBoundedFifo(r, calls[..|calls| - 1]);
      StepIsFifoStep(before, calls[|calls| - 1]);
      var fifo := Fifo(Contents(before.ring), before.accepted, before.popped);
      FifoStepKeepsOrder(|r.slots| - 1, fifo, calls[|calls| - 1]);
    }
  }

  lemma FifoStepKeepsOrder<T>(capacity: nat, f: Fifo<T>, call: Call<T>)
    requires f.accepted == f.popped + f.held
    ensures var f' := FifoStep(capacity, f, call); f'.accepted == f'.popped + f'.held
  {
  }

  // ---------------------------------------------------------------- the class

  class CircularQueue<T> {
    const queueList: array<T>
    const none: T  // the default-constructed element, which a refused push returns
    var head: nat
    var tail: nat

    ghost predicate Valid()
      reads this
    {
      queueList.Length >= 1 && head < queueList.Length && tail < queueList.Length
    }

    ghost function State(): Ring<T>
      reads this, queueList
    {
      Ring(queueList[..], head, tail)
    }

    ghost function Items(): seq<T>
      requires Valid()
      reads this, queueList
    {
      Contents(State())
    }

    constructor (length: nat, none: T)
      requires length >= 1
      ensures Valid() && fresh(queueList)
      ensures queueList.Length == length && this.none == none
      ensures Items() == [] && head == tail
    {
      queueList := new T[length](_ => none);
      this.none := none;
      head, tail := 0, 0;
    }

    method Push(inData: T) returns (stored: T)
      requires Valid()
      modifies this, queueList
      ensures Valid()
      ensures State() == RingPush(old(State()), inData)
      ensures |old(Items())| < queueList.Length - 1 ==>
                Items() == old(Items()) + [inData] && stored == inData
      ensures |old(Items())| == queueList.Length - 1 ==>
                State() == old(State()) && stored == none
      ensures |old(Items())| <= queueList.Length - 1
    {
      PushAppends(State(), inData);
      var dataInsertedIndex := After(tail, queueList.Length);
      if dataInsertedIndex == head {
        return none;
      }
      queueList[dataInsertedIndex] := inData;
      tail := dataInsertedIndex;
      stored := inData;
    }

    method Pop(unchangedOut: T) returns (popped: bool, outData: T)
      requires Valid()
      modifies this
      ensures Valid()
      ensures State() == RingPop(old(State()))
      ensures popped <==> old(Items()) != []
      ensures if popped then outData == old(Items())[0] && Items() == old(Items())[1..]
              else outData == unchangedOut && State() == old(State())
    {
      PopTakesOldest(State());
      var empty := IsEmpty();
      if empty {
        return false, unchangedOut;
      }
      var dataPopIndex := After(head, queueList.Length);
      outData := queueList[dataPopIndex];
      head := dataPopIndex;
      popped := true;
    }

    method IsEmpty() returns (empty: bool)
      requires Valid()
      ensures empty <==> Items() == []
      ensures empty <==> head == tail
    {
      PopTakesOldest(State());
      empty := head == tail;
    }
  }
}
