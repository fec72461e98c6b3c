/** The sender thread as a class: the queue of pending data and the retry loop. */
module ReliableSenders {
  import opened PacketHeaders
  import opened CircularQueues
  import opened ReliableProtocol

  const QUEUE_LENGTH: nat := 400

  /** The queue holds pointers; a refused push hands back the null pointer. */
  datatype Pointer = Null | To(datum: Datum)

  /** How one timed wait ends; after a notification, with the completed number that
      the sender then reads. */
  datatype Wait = TimedOut | Notified(completed: bv16)

  /** The answers of the successive waits. */
  type Waits = nat -> Wait

  /** The retry loop for one datum whose first wait was number `start` and whose next
      one is number `at`. */
  ghost function Attempt(d: Datum, waits: Waits, start: nat, at: nat): Block
    requires start <= at <= start + REPEAT_COUNT
    decreases start + REPEAT_COUNT - at
  {
    if at == start + REPEAT_COUNT then Block(d, REPEAT_COUNT, GaveUp)
    else
      match waits(at)
      case TimedOut => Attempt(d, waits, start, at + 1)
      case Notified(completed) =>
        Block(d, at + 1 - start, if SenderAccepts(d.number, completed) then Confirmed else WrongNumber)
  }

  /** A block is as long as the run of timeouts before the first notification, at
      most twelve, and its outcome is what that notification says. */
  lemma {:induction false} AttemptMeans(d: Datum, waits: Waits, start: nat, at: nat)
    requires start <= at < start + REPEAT_COUNT
    ensures var b := Attempt(d, waits, start, at);
            && b.datum == d
            && at < start + b.sends <= start + REPEAT_COUNT
            && (forall k :: at <= k < start + b.sends - 1 ==> waits(k).TimedOut?)
            && match waits(start + b.sends - 1)
               case TimedOut => b.outcome == GaveUp && b.sends == REPEAT_COUNT
               case Notified(completed) =>
                 b.outcome == if SenderAccepts(d.number, completed) then Confirmed else WrongNumber
    decreases start + REPEAT_COUNT - at
  {
    if waits(at).TimedOut? && at + 1 < start + REPEAT_COUNT {
      AttemptMeans(d, waits, start, at + 1);
    }
  }

  /** The blocks of a whole queue, taken from the front. */
  ghost function Blocks(data: seq<Pointer>, waits: Waits, at: nat): seq<Block>
    requires forall i :: 0 <= i < |data| ==> data[i].To?
  {
    if data == [] then []
    else
      var b := Attempt(data[0].datum, waits, at, at);
      [b] + Blocks(data[1..], waits, at + b.sends)
  }

  lemma {:induction false} BlocksAreSound(data: seq<Pointer>, waits: Waits, at: nat)
    requires forall i :: 0 <= i < |data| ==> data[i].To?
    ensures var bs := Blocks(data, waits, at);
            |bs| == |data| && forall i :: 0 <= i < |data| ==> bs[i].datum == data[i].datum && Sound(bs[i])
  {
    if data != [] {
      AttemptMeans(data[0].datum, waits, at, at);
      var b := Attempt(data[0].datum, waits, at, at);
      BlocksAreSound(data[1..], waits, at + b.sends);
    }
  }

  /** The waits are used up one after the other: block i starts with the wait whose
      number is `at` plus the sends of the blocks before. */
  lemma {:induction false} BlocksUseSuccessiveWaits(data: seq<Pointer>, waits: Waits, at: nat, i: nat)
    requires i < |data| && forall i :: 0 <= i < |data| ==> data[i].To?
    ensures var bs := Blocks(data, waits, at);
            && |bs| == |data|
            && var start := at + |Transmissions(bs[..i])|;
            bs[i] == Attempt(data[i].datum, waits, start, start)
    decreases i
  {
    var bs := Blocks(data, waits, at);
    BlocksAreSound(data, waits, at);
    if i == 0 {
      assert bs[..0] == [];
    } else {
      var rest := Blocks(data[1..], waits, at + bs[0].sends);
      BlocksUseSuccessiveWaits(data[1..], waits, at + bs[0].sends, i - 1);
      assert bs[..i] == [bs[0]] + rest[..i - 1];
      FirstBlockSends(bs[0], rest[..i - 1]);
    }
  }

  lemma {:induction false} FirstBlockSends(b: Block, rest: seq<Block>)
    ensures |Transmissions([b] + rest)| == b.sends + |Transmissions(rest)|
    decreases |rest|
  {
    RepeatLength(b.datum, b.sends);
    if rest == [] {
      assert ([b] + rest)[..0] == [];
    } else {
      var last := rest[|rest| - 1];
      RepeatLength(last.datum, last.sends);
      assert ([b] + rest)[..|rest|] == [b] + rest[..|rest| - 1];
      FirstBlockSends(b, rest[..|rest| - 1]);
    }
  }

  lemma {:induction false} RepeatLength(d: Datum, k: nat)
    ensures |Repeat(d, k)| == k && forall i :: 0 <= i < k ==> Repeat(d, k)[i] == d
  {
    if k > 0 {
      RepeatLength(d, k - 1);
    }
  }

  /** All blocks once the queued data are worked off after `done`. */
  ghost function Finished(done: seq<Block>, data: seq<Pointer>, waits: Waits, at: nat): seq<Block>
    requires forall i :: 0 <= i < |data| ==> data[i].To?
  {
    done + Blocks(data, waits, at)
  }

  lemma FinishedStep(done: seq<Block>, data: seq<Pointer>, waits: Waits, at: nat)
    requires data != [] && forall i :: 0 <= i < |data| ==> data[i].To?
    ensures var b := Attempt(data[0].datum, waits, at, at);
            Finished(done, data, waits, at) == Finished(done + [b], data[1..], waits, at + b.sends)
  {
  }

  lemma TransmissionsAppend(bs: seq<Block>, b: Block)
    ensures Transmissions(bs + [b]) == Transmissions(bs) + Repeat(b.datum, b.sends)
  {
  }

  class ReliableUDP {
    const reliableDataQueue: CircularQueue<Pointer>
    var sent: seq<Datum>    // what WriteTo was called with, in order
    var blocks: seq<Block>  // how the loop left each datum

    ghost predicate Valid()
      reads this, reliableDataQueue, reliableDataQueue.queueList
    {
      && reliableDataQueue.Valid()
      && reliableDataQueue.none == Null
      && (forall i :: 0 <= i < |reliableDataQueue.Items()| ==> reliableDataQueue.Items()[i].To?)
      && sent == Transmissions(blocks)
    }

    constructor ()
      ensures Valid() && reliableDataQueue.Items() == [] && blocks == []
      ensures fresh(reliableDataQueue) && fresh(reliableDataQueue.queueList)
      ensures reliableDataQueue.queueList.Length == QUEUE_LENGTH
    {
      reliableDataQueue := new CircularQueue<Pointer>(QUEUE_LENGTH, Null);
      sent, blocks := [], [];
    }

    /** Queues a datum and answers its pointer, or null when the queue is full. */
    method AddReliableData(d: Datum) returns (result: Pointer)
      requires Valid()
      modifies reliableDataQueue, reliableDataQueue.queueList
      ensures Valid()
      ensures |old(reliableDataQueue.Items())| < reliableDataQueue.queueList.Length - 1 ==>
                result == To(d) && reliableDataQueue.Items() == old(reliableDataQueue.Items()) + [To(d)]
      ensures |old(reliableDataQueue.Items())| == reliableDataQueue.queueList.Length - 1 ==>
                result == Null && reliableDataQueue.Items() == old(reliableDataQueue.Items())
    {
      result := reliableDataQueue.Push(To(d));
    }

    /** The retry loop for one popped datum. */
    method SendUntilAnswered(d: Datum, waits: Waits, at: nat) returns (block: Block)
      requires sent == Transmissions(blocks)
      modifies `sent, `blocks
      ensures block == Attempt(d, waits, at, at)
      ensures blocks == old(blocks) + [block] && sent == Transmissions(blocks)
      ensures sent == old(sent) + Repeat(d, block.sends)
    {
      block := Block(d, REPEAT_COUNT, GaveUp);
      var i := 0;
      while i < REPEAT_COUNT
        invariant 0 <= i <= REPEAT_COUNT
        invariant sent == old(sent) + Repeat(d, i)
        invariant Attempt(d, waits, at, at) == Attempt(d, waits, at, at + i)
        invariant block == Block(d, REPEAT_COUNT, GaveUp) && blocks == old(blocks)
      {
        sent := sent + [d];
        assert old(sent) + Repeat(d, i) + [d] == old(sent) + Repeat(d, i + 1);
        var status := waits(at + i);
        if status.Notified? {
          block := Block(d, i + 1, if SenderAccepts(d.number, status.completed) then Confirmed else WrongNumber);
          break;
        }
        i := i + 1;
      }
      TransmissionsAppend(blocks, block);
      blocks := blocks + [block];
    }

    /** One round of the outer loop on a queue that holds something. */
    method ProcessNext(waits: Waits, at: nat) returns (block: Block)
      requires Valid() && reliableDataQueue.Items() != []
      modifies this, reliableDataQueue
      ensures Valid()
      ensures reliableDataQueue.Items() == old(reliableDataQueue.Items())[1..]
      ensures block == Attempt(old(reliableDataQueue.Items())[0].datum, waits, at, at)
      ensures blocks == old(blocks) + [block]
      ensures sent == old(sent) + Repeat(block.datum, block.sends)
      ensures Finished(blocks, reliableDataQueue.Items(), waits, at + block.sends)
              == Finished(old(blocks), old(reliableDataQueue.Items()), waits, at)
    {
      FinishedStep(blocks, reliableDataQueue.Items(), waits, at);
      var popped, data := reliableDataQueue.Pop(Null);
      AttemptMeans(data.datum, waits, at, at);
      block := SendUntilAnswered(data.datum, waits, at);
    }

    /** The outer loop until the queue runs dry: data are worked off in queue order,
        one contiguous block of sends each. */
    method ReliableProcessor(waits: Waits, at: nat)
      requires Valid()
      modifies this, reliableDataQueue
      ensures Valid() && reliableDataQueue.Items() == []
      ensures blocks == old(blocks) + Blocks(old(reliableDataQueue.Items()), waits, at)
      ensures sent == Transmissions(blocks)
    {
      var used: nat := at;
      ghost var all := Finished(blocks, reliableDataQueue.Items(), waits, at);
      var empty := reliableDataQueue.IsEmpty();
      while !empty
        invariant Valid()
        invariant empty <==> reliableDataQueue.Items() == []
        invariant all == Finished(blocks, reliableDataQueue.Items(), waits, used)
        decreases |reliableDataQueue.Items()|
      {
        var block := ProcessNext(waits, used);
        used := used + block.sends;
        empty := reliableDataQueue.IsEmpty();
      }
    }
  }
}
