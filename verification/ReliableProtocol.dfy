/** Stop-and-wait delivery over a network that may lose, duplicate and reorder: the
    sender's retry loop, the peer that acknowledges, and the thread that receives
    the acknowledgements, as one state machine. */
module ReliableProtocol {
  import opened Sequences
  import opened PacketHeaders

  const REPEAT_COUNT: nat := 12
  const QUEUE_CAPACITY: nat := 399

  datatype Datum = Datum(id: nat, number: bv16)

  /** A data packet carries its datum; an acknowledgement is the header alone. */
  datatype Message = Data(header: bv32, datum: Datum) | Ack(header: bv32)

  /** Where the sender's loop stands. `Ready` is before a send, `Waiting` inside the
      timed wait, `Woken` after a wake-up and before the number is compared;
      `sends` counts the sends of this datum so far. */
  datatype Phase =
    | Idle
    | Ready(datum: Datum, sends: nat)
    | Waiting(datum: Datum, sends: nat)
    | Woken(datum: Datum, sends: nat)

  datatype Outcome = Confirmed | WrongNumber | GaveUp

  /** One finished datum: how often it was sent and how the loop left it. */
  datatype Block = Block(datum: Datum, sends: nat, outcome: Outcome)

  /** `accepted`, `sent` and `blocks` are histories; `network` holds every message
      ever sent, each of which may be delivered any number of times or never;
      `stores` are the numbers that were notified but not stored yet. */
  datatype State = State(
    accepted: seq<Datum>,
    queue: seq<Datum>,
    phase: Phase,
    sent: seq<Datum>,
    blocks: seq<Block>,
    completed: bv16,
    stores: multiset<bv16>,
    network: set<Message>,
    received: set<Datum>)

  const INITIAL := State([], [], Idle, [], [], 0, multiset{}, {}, {})

  datatype Step =
    | Add(datum: Datum)           // AddReliableData
    | Take                        // Pop at the head of the loop
    | Transmit                    // WriteTo
    | TimeOut                     // wait_for ends with timeout
    | DeliverData(m: Message)     // the peer's CheckAck, tag 0
    | Notify(m: Message)          // CheckAck, tag 9999: notify_all comes first
    | Store(number: bv16)         // ... then the exchange of the completed number
    | NotifyAndStore(m: Message)  // both at once
    | Compare                     // the woken sender reads the completed number

  ghost predicate Enabled(s: State, step: Step) {
    match step
    case Add(_) => true
    case Take => s.phase.Idle? && s.queue != []
    case Transmit => s.phase.Ready?
    case TimeOut => s.phase.Waiting?
    case DeliverData(m) => m in s.network && m.Data? && Tag(m.header) == DATA_TAG
    case Notify(m) => m in s.network && m.Ack? && Tag(m.header) == ACK_TAG
    case Store(number) => number in s.stores
    case NotifyAndStore(m) => m in s.network && m.Ack? && Tag(m.header) == ACK_TAG
    case Compare => s.phase.Woken?
  }

  ghost function Wake(p: Phase): Phase {
    if p.Waiting? then Woken(p.datum, p.sends) else p
  }

  ghost function Close(s: State, outcome: Outcome): State
    requires !s.phase.Idle?
  {
    s.(phase := Idle, blocks := s.blocks + [Block(s.phase.datum, s.phase.sends, outcome)])
  }

  ghost function Next(s: State, step: Step): State
    requires Enabled(s, step)
  {
    match step
    case Add(d) =>
      if |s.queue| < QUEUE_CAPACITY then s.(accepted := s.accepted + [d], queue := s.queue + [d]) else s
    case Take => s.(queue := s.queue[1..], phase := Ready(s.queue[0], 0))
    case Transmit =>
      var d := s.phase.datum;
      s.(phase := Waiting(d, s.phase.sends + 1),
         sent := s.sent + [d],
         network := s.network + {Data(Pack(d.number, DATA_TAG), d)})
    case TimeOut =>
      if s.phase.sends < REPEAT_COUNT then s.(phase := Ready(s.phase.datum, s.phase.sends))
      else Close(s, GaveUp)
    case DeliverData(m) =>
      s.(received := s.received + {m.datum}, network := s.network + {Ack(AckFor(m.header))})
    case Notify(m) =>
      s.(phase := Wake(s.phase), stores := s.stores + multiset{CompletedBy(m.header)})
    case Store(number) => s.(completed := number, stores := s.stores - multiset{number})
    case NotifyAndStore(m) => s.(phase := Wake(s.phase), completed := CompletedBy(m.header))
    case Compare =>
      Close(s, if SenderAccepts(s.phase.datum.number, s.completed) then Confirmed else WrongNumber)
  }

  ghost predicate Legal(s: State, steps: seq<Step>)
    decreases |steps|
  {
    steps == [] || (Enabled(s, steps[0]) && Legal(Next(s, steps[0]), steps[1..]))
  }

  ghost function Exec(s: State, steps: seq<Step>): State
    requires Legal(s, steps)
    decreases |steps|
  {
    if steps == [] then s else Exec(Next(s, steps[0]), steps[1..])
  }

  // ---------------------------------------------------------------- what the peer has

  /** The peer has received a data packet with this number. */
  ghost predicate PeerHas(s: State, number: bv16) {
    exists d :: d in s.received && d.number == number
  }

  /** The network carries only what sender and peer put there: data packets with
      their own number, and acknowledgements of received packets. */
  ghost predicate NetworkIsHonest(s: State) {
    && (forall m :: m in s.network && m.Data? ==> m.header == Pack(m.datum.number, DATA_TAG))
    && (forall m :: m in s.network && m.Ack? ==> PeerHas(s, CompletedBy(m.header)))
    && (forall m :: m in s.network && m.Data? ==> m.datum in s.sent)
    && forall d :: d in s.received ==> d in s.sent
  }

  /** Every stored or about to be stored number was received by the peer; the
      initial zero is the only exception. */
  ghost predicate StoresAreReceived(s: State) {
    && (forall n :: n in s.stores ==> PeerHas(s, n))
    && (s.completed == 0 || PeerHas(s, s.completed))
  }

  ghost predicate ConfirmedIsReceived(s: State) {
    forall i :: 0 <= i < |s.blocks| && s.blocks[i].outcome.Confirmed? ==>
      && (s.blocks[i].datum.number == 0 || PeerHas(s, s.blocks[i].datum.number))
      && (s.blocks[i].datum.number as int) < 0x8000
  }

  ghost predicate Honest(s: State) {
    NetworkIsHonest(s) && StoresAreReceived(s) && ConfirmedIsReceived(s)
  }

  lemma PeerKeeps(s: State, step: Step, number: bv16)
    requires Enabled(s, step) && PeerHas(s, number)
    ensures PeerHas(Next(s, step), number)
  {
  }

  lemma StepKeepsNetworkHonest(s: State, step: Step)
    requires NetworkIsHonest(s) && Enabled(s, step)
    ensures NetworkIsHonest(Next(s, step))
  {
    var t := Next(s, step);
    forall m | m in t.network && m.Ack?
      ensures PeerHas(t, CompletedBy(m.header))
    {
      if m in s.network {
        PeerKeeps(s, step, CompletedBy(m.header));
      } else {
        AckReturnsNumber(step.m.datum.number);
        assert step.m.datum in t.received;
      }
    }
  }

  lemma StepKeepsStores(s: State, step: Step)
    requires NetworkIsHonest(s) && StoresAreReceived(s) && Enabled(s, step)
    ensures StoresAreReceived(Next(s, step))
  {
    var t := Next(s, step);
    if s.completed != 0 {
      PeerKeeps(s, step, s.completed);
    }
    forall n | n in t.stores
      ensures PeerHas(t, n)
    {
      assert n in s.stores || (step.Notify? && n == CompletedBy(step.m.header));
      PeerKeeps(s, step, n);
    }
    match step
    case Store(number) => PeerKeeps(s, step, number);
    case NotifyAndStore(m) => PeerKeeps(s, step, CompletedBy(m.header));
    case _ =>
  }

  lemma StepKeepsConfirmed(s: State, step: Step)
    requires StoresAreReceived(s) && ConfirmedIsReceived(s) && Enabled(s, step)
    ensures ConfirmedIsReceived(Next(s, step))
  {
    var t := Next(s, step);
    forall i | 0 <= i < |t.blocks| && t.blocks[i].outcome.Confirmed?
      ensures t.blocks[i].datum.number == 0 || PeerHas(t, t.blocks[i].datum.number)
      ensures (t.blocks[i].datum.number as int) < 0x8000
    {
      var number := t.blocks[i].datum.number;
      if i < |s.blocks| {
        assert t.blocks[i] == s.blocks[i];
      } else {
        SignBit(number);
      }
      if number != 0 {
        PeerKeeps(s, step, number);
      }
    }
  }

  lemma StepKeepsHonest(s: State, step: Step)
    requires Honest(s) && Enabled(s, step)
    ensures Honest(Next(s, step))
  {
    StepKeepsNetworkHonest(s, step);
    StepKeepsStores(s, step);
    StepKeepsConfirmed(s, step);
  }

  lemma {:induction false} RunKeepsHonest(s: State, steps: seq<Step>)
    requires Honest(s) && Legal(s, steps)
    ensures Honest(Exec(s, steps))
    decreases |steps|
  {
    if steps != [] {
      StepKeepsHonest(s, steps[0]);
      RunKeepsHonest(Next(s, steps[0]), steps[1..]);
    }
  }

  /** In every run, whatever the network does: a number that an acknowledgement
      stores is the number of a packet that the peer has received, and a datum with
      a number other than zero is confirmed only after such a receipt. Numbers from
      32768 on are never confirmed. */
  lemma ConfirmedAfterReceipt(steps: seq<Step>)
    requires Legal(INITIAL, steps)
    ensures var s := Exec(INITIAL, steps);
            && (forall n :: n in s.stores ==> PeerHas(s, n))
            && (s.completed == 0 || PeerHas(s, s.completed))
            && forall b :: b in s.blocks && b.outcome.Confirmed? ==>
                 && (b.datum.number == 0 || PeerHas(s, b.datum.number))
                 && (b.datum.number as int) < 0x8000
  {
    RunKeepsHonest(INITIAL, steps);
  }

  // ---------------------------------------------------------------- what the steps say

  ghost function StoredBy(before: bv16, step: Step): bv16 {
    match step
    case Store(number) => number
    case NotifyAndStore(m) => Number(m.header) - 1
    case _ => before
  }

  /** The number of the last store among the steps, or what was there before. */
  ghost function LastStored(before: bv16, steps: seq<Step>): bv16
    decreases |steps|
  {
    if steps == [] then before else LastStored(StoredBy(before, steps[0]), steps[1..])
  }

  /** After every run the completed number is that of the last store in it. */
  lemma {:induction false} CompletedIsLastStored(s: State, steps: seq<Step>)
    requires Legal(s, steps)
    ensures Exec(s, steps).completed == LastStored(s.completed, steps)
    decreases |steps|
  {
    if steps != [] {
      CompletedIsLastStored(Next(s, steps[0]), steps[1..]);
    }
  }

  /** How often the steps notify a number, and how often they store it. */
  ghost function TimesNotified(steps: seq<Step>, n: bv16): nat {
    if steps == [] then 0
    else TimesNotified(steps[1..], n) + (if Notifies(steps[0], n) then 1 else 0)
  }

  ghost predicate Notifies(step: Step, n: bv16) {
    step.Notify? && CompletedBy(step.m.header) == n
  }

  ghost predicate Stores(step: Step, n: bv16) {
    step.Store? && step.number == n
  }

  lemma StepStoresOnce(s: State, step: Step, n: bv16)
    requires Enabled(s, step)
    ensures Count(Next(s, step).stores, n) + (if Stores(step, n) then 1 else 0)
            == Count(s.stores, n) + (if Notifies(step, n) then 1 else 0)
  {
    match step
    case Notify(m) => NotifyAddsOne(s, m, n);
    case Store(number) => StoreTakesOne(s, number, n);
    case _ =>
  }

  lemma NotifyAddsOne(s: State, m: Message, n: bv16)
    requires Enabled(s, Notify(m))
    ensures Count(Next(s, Notify(m)).stores, n)
            == Count(s.stores, n) + (if Notifies(Notify(m), n) then 1 else 0)
  {
    CountAfter(s.stores, CompletedBy(m.header), n);
  }

  lemma StoreTakesOne(s: State, number: bv16, n: bv16)
    requires number in s.stores
    ensures Count(Next(s, Store(number)).stores, n) + (if Stores(Store(number), n) then 1 else 0) == Count(s.stores, n)
  {
    CountAfter(s.stores, number, n);
  }

  ghost function TimesStored(steps: seq<Step>, n: bv16): nat {
    if steps == [] then 0
    else TimesStored(steps[1..], n) + (if Stores(steps[0], n) then 1 else 0)
  }

  /** Over every run, each notification is stored once or still to be stored. */
  lemma {:induction false} NotifiedIsStoredOnce(s: State, steps: seq<Step>, n: bv16)
    requires Legal(s, steps)
    ensures Count(Exec(s, steps).stores, n) + TimesStored(steps, n) == Count(s.stores, n) + TimesNotified(steps, n)
    decreases |steps|
  {
    if steps != [] {
      StepStoresOnce(s, steps[0], n);
      NotifiedIsStoredOnce(Next(s, steps[0]), steps[1..], n);
    }
  }

  /** How the loop left a datum: after as many timeouts as sends, or having read a
      completed number. */
  datatype Ending = TimedOut(sends: nat) | Read(sends: nat, completed: bv16)

  ghost function SendsAfter(sends: nat, step: Step): nat {
    match step
    case Take => 0
    case Transmit => sends + 1
    case _ => sends
  }

  ghost function EndingOf(step: Step, sends: nat, completed: bv16): seq<Ending> {
    match step
    case TimeOut => if sends == REPEAT_COUNT then [TimedOut(sends)] else []
    case Compare => [Read(sends, completed)]
    case _ => []
  }

  /** The endings that a run's steps spell, when the sends of the current datum and the
      completed number are known at its start. */
  ghost function Endings(steps: seq<Step>, sends: nat, completed: bv16): seq<Ending> {
    if steps == [] then []
    else
      EndingOf(steps[0], sends, completed)
      + Endings(steps[1..], SendsAfter(sends, steps[0]), StoredBy(completed, steps[0]))
  }

  /** A block records its ending: given up after twelve timeouts, confirmed exactly
      when the number read, as a signed one, is the packet's own. */
  ghost predicate Records(b: Block, e: Ending) {
    && b.sends == e.sends
    && match e
       case TimedOut(sends) => b.outcome == GaveUp && sends == REPEAT_COUNT
       case Read(_, completed) =>
         b.outcome == if b.datum.number as int == Signed(completed) then Confirmed else WrongNumber
  }

  /** The blocks from number `from` on record the endings one for one. */
  ghost predicate AllRecord(blocks: seq<Block>, from: nat, endings: seq<Ending>) {
    && |blocks| == from + |endings|
    && forall k :: from <= k < |blocks| ==> Records(blocks[k], endings[k - from])
  }

  lemma RecordsJoin(before: seq<Block>, blocks: seq<Block>, from: nat, first: seq<Ending>, rest: seq<Ending>)
    requires before <= blocks && AllRecord(before, from, first) && AllRecord(blocks, |before|, rest)
    ensures AllRecord(blocks, from, first + rest)
  {
    forall k | from <= k < |blocks|
      ensures Records(blocks[k], (first + rest)[k - from])
    {
      assert k < |before| ==> blocks[k] == before[k];
    }
  }

  lemma {:induction false} BlocksOnlyGrow(s: State, steps: seq<Step>)
    requires Legal(s, steps)
    ensures s.blocks <= Exec(s, steps).blocks
    decreases |steps|
  {
    if steps != [] {
      BlocksOnlyGrow(Next(s, steps[0]), steps[1..]);
    }
  }

  lemma StepRecords(s: State, step: Step, sends: nat)
    requires InOrder(s) && Enabled(s, step) && (s.phase.Idle? || s.phase.sends == sends)
    ensures var t := Next(s, step);
            && AllRecord(t.blocks, |s.blocks|, EndingOf(step, sends, s.completed))
            && (t.phase.Idle? || t.phase.sends == SendsAfter(sends, step))
            && t.completed == StoredBy(s.completed, step)
  {
    if step.Compare? {
      AcceptsIsPromotedEquality(s.phase.datum.number, s.completed);
    }
  }

  /** In every run the finished blocks are, one for one, what the steps alone spell. */
  lemma {:induction false} BlocksRecordTheRun(s: State, steps: seq<Step>, sends: nat)
    requires InOrder(s) && Legal(s, steps) && (s.phase.Idle? || s.phase.sends == sends)
    ensures AllRecord(Exec(s, steps).blocks, |s.blocks|, Endings(steps, sends, s.completed))
    decreases |steps|
  {
    if steps != [] {
      var t := Next(s, steps[0]);
      StepKeepsOrder(s, steps[0]);
      StepRecords(s, steps[0], sends);
      BlocksOnlyGrow(t, steps[1..]);
      BlocksRecordTheRun(t, steps[1..], SendsAfter(sends, steps[0]));
      RecordsJoin(t.blocks, Exec(s, steps).blocks, |s.blocks|, EndingOf(steps[0], sends, s.completed),
                  Endings(steps[1..], SendsAfter(sends, steps[0]), t.completed));
    }
  }

  /** The data of the adds that the queue takes, and the queue's length, as the steps
      alone spell them: an add is refused exactly when 399 data wait. */
  ghost function Taken(steps: seq<Step>, waiting: nat): seq<Datum> {
    if steps == [] then []
    else
      match steps[0]
      case Add(d) => if waiting < 399 then [d] + Taken(steps[1..], waiting + 1) else Taken(steps[1..], waiting)
      case Take => Taken(steps[1..], if waiting > 0 then waiting - 1 else 0)
      case _ => Taken(steps[1..], waiting)
  }

  /** In every run the accepted data are those of the adds that met fewer than 399. */
  lemma {:induction false} AcceptedIsTaken(s: State, steps: seq<Step>)
    requires Legal(s, steps)
    ensures Exec(s, steps).accepted == s.accepted + Taken(steps, |s.queue|)
    decreases |steps|
  {
    if steps != [] {
      AcceptedIsTaken(Next(s, steps[0]), steps[1..]);
    }
  }

  // ---------------------------------------------------------------- what the network holds

  /** Every send and every receipt has left its message. */
  ghost predicate NetworkIsComplete(s: State) {
    && (forall d :: d in s.sent ==> Data(Pack(d.number, DATA_TAG), d) in s.network)
    && (forall d :: d in s.received ==> Ack(AckFor(Pack(d.number, DATA_TAG))) in s.network)
    && (forall m :: m in s.network && m.Ack? ==>
          exists d :: d in s.received && m.header == AckFor(Pack(d.number, DATA_TAG)))
  }

  lemma {:induction false} RunKeepsNetworkComplete(s: State, steps: seq<Step>)
    requires NetworkIsHonest(s) && NetworkIsComplete(s) && Legal(s, steps)
    ensures NetworkIsHonest(Exec(s, steps)) && NetworkIsComplete(Exec(s, steps))
    decreases |steps|
  {
    if steps != [] {
      StepKeepsNetworkHonest(s, steps[0]);
      StepKeepsNetworkComplete(s, steps[0]);
      RunKeepsNetworkComplete(Next(s, steps[0]), steps[1..]);
    }
  }

  lemma StepKeepsNetworkComplete(s: State, step: Step)
    requires NetworkIsHonest(s) && NetworkIsComplete(s) && Enabled(s, step)
    ensures NetworkIsComplete(Next(s, step))
  {
  }

  /** In every run the network holds exactly a data packet for each datum sent and the
      acknowledgement of each datum received. */
  lemma NetworkIsExactly(steps: seq<Step>, m: Message)
    requires Legal(INITIAL, steps)
    ensures var s := Exec(INITIAL, steps);
            m in s.network <==>
              match m
              case Data(header, d) => d in s.sent && header == Pack(d.number, DATA_TAG)
              case Ack(header) => exists d :: d in s.received && header == AckFor(Pack(d.number, DATA_TAG))
  {
    RunKeepsNetworkComplete(INITIAL, steps);
  }

  ghost predicate Delivers(step: Step, d: Datum) {
    step.DeliverData? && step.m.Data? && step.m.datum == d
  }

  /** The peer has received exactly the data delivered by the run. */
  lemma {:induction false} ReceivedIsDelivered(s: State, steps: seq<Step>, d: Datum)
    requires Legal(s, steps)
    ensures d in Exec(s, steps).received
            <==> d in s.received || exists i :: 0 <= i < |steps| && Delivers(steps[i], d)
    decreases |steps|
  {
    if steps != [] {
      var rest := steps[1..];
      ReceivedIsDelivered(Next(s, steps[0]), rest, d);
      assert forall i :: 1 <= i < |steps| ==> steps[i] == rest[i - 1];
      assert forall i :: 0 <= i < |rest| ==> rest[i] == steps[i + 1];
    }
  }

  // ---------------------------------------------------------------- any small number can be confirmed

  ghost predicate Separate(steps: seq<Step>) {
    forall i :: 0 <= i < |steps| ==> !steps[i].NotifyAndStore?
  }

  /** Some legal run that notifies and stores in separate steps leads from s to t. */
  ghost predicate LeadsTo(s: State, t: State) {
    exists steps :: Separate(steps) && Legal(s, steps) && Exec(s, steps) == t
  }

  lemma StaysPut(s: State)
    ensures LeadsTo(s, s)
  {
    assert Separate([]) && Legal(s, []) && Exec(s, []) == s;
  }

  lemma Further(s: State, t: State, step: Step) returns (u: State)
    requires LeadsTo(s, t) && Enabled(t, step) && !step.NotifyAndStore?
    ensures u == Next(t, step) && LeadsTo(s, u)
  {
    var steps :| Separate(steps) && Legal(s, steps) && Exec(s, steps) == t;
    ExecAppend(s, steps, step);
    u := Next(t, step);
    assert Separate(steps + [step]);
  }

  lemma AckOf(number: bv16)
    ensures var header := Pack(number, DATA_TAG);
            Tag(header) == DATA_TAG && Tag(AckFor(header)) == ACK_TAG && CompletedBy(AckFor(header)) == number
  {
    UnpackPack(number, DATA_TAG);
    AckReturnsNumber(number);
  }

  /** Whatever the sender is doing, a data packet that was sent can reach the peer. */
  lemma SentCanArrive(s: State, d: Datum) returns (t: State)
    requires Data(Pack(d.number, DATA_TAG), d) in s.network
    ensures LeadsTo(s, t) && t == s.(received := s.received + {d}, network := t.network)
    ensures Ack(AckFor(Pack(d.number, DATA_TAG))) in t.network
  {
    AckOf(d.number);
    StaysPut(s);
    t := Further(s, s, DeliverData(Data(Pack(d.number, DATA_TAG), d)));
  }

  /** Whatever the sender is doing, the acknowledgement of a packet can arrive, wake a
      wait, and have its number stored. */
  lemma AckCanBeStored(s: State, number: bv16) returns (t: State)
    requires Ack(AckFor(Pack(number, DATA_TAG))) in s.network
    ensures LeadsTo(s, t) && t == s.(phase := Wake(s.phase), completed := number, stores := t.stores)
  {
    AckOf(number);
    StaysPut(s);
    t := Further(s, s, Notify(Ack(AckFor(Pack(number, DATA_TAG)))));
    assert number in t.stores;
    t := Further(s, t, Store(number));
  }

  /** In every reachable state, whatever was sent can still arrive, and whatever arrived
      can still be acknowledged and stored. */
  lemma AnythingSentCanBeStored(s: State, d: Datum) returns (t: State)
    requires Reachable(s) && d in s.sent
    ensures LeadsTo(s, t) && d in t.received && t.completed == d.number
  {
    var steps :| Legal(INITIAL, steps) && Exec(INITIAL, steps) == s;
    RunKeepsNetworkComplete(INITIAL, steps);
    var u := SentCanArrive(s, d);
    t := AckCanBeStored(u, d.number);
    var _ := LeadsOn(s, u, t);
  }

  /** The next datum in the queue can be confirmed by its first send. */
  lemma HeadCanBeConfirmed(s: State) returns (t: State)
    requires s.phase.Idle? && s.queue != [] && (s.queue[0].number as int) < 0x8000
    ensures LeadsTo(s, t)
    ensures t.blocks == s.blocks + [Block(s.queue[0], 1, Confirmed)] && s.queue[0] in t.received
    ensures t.phase.Idle? && t.queue == s.queue[1..]
  {
    var d := s.queue[0];
    StaysPut(s);
    var u := Further(s, s, Take);
    u := Further(s, u, Transmit);
    t := SentCanArrive(u, d);
    u := LeadsOn(s, u, t);
    t := AckCanBeStored(u, d.number);
    u := LeadsOn(s, u, t);
    AckReturnsNumber(d.number);
    OwnAckAcceptedIff(d.number);
    t := Further(s, u, Compare);
  }

  ghost predicate ConfirmsHead(s: State, t: State)
    requires s.queue != []
  {
    |s.blocks| < |t.blocks| && t.blocks[|s.blocks|].datum == s.queue[0] && t.blocks[|s.blocks|].outcome.Confirmed?
  }

  /** From every reachable state between two data, the next datum can be confirmed
      exactly when its number is below 32768. */
  lemma HeadCanBeConfirmedIff(s: State)
    requires Reachable(s) && s.phase.Idle? && s.queue != []
    ensures (exists t :: LeadsTo(s, t) && ConfirmsHead(s, t)) <==> (s.queue[0].number as int) < 0x8000
  {
    if (s.queue[0].number as int) < 0x8000 {
      var t := HeadCanBeConfirmed(s);
      assert ConfirmsHead(s, t);
    }
    forall t | LeadsTo(s, t) && ConfirmsHead(s, t)
      ensures (s.queue[0].number as int) < 0x8000
    {
      var before :| Legal(INITIAL, before) && Exec(INITIAL, before) == s;
      var steps :| Separate(steps) && Legal(s, steps) && Exec(s, steps) == t;
      RunKeepsHonest(INITIAL, before);
      RunKeepsHonest(s, steps);
    }
  }

  /** Every datum with a number below 32768 is confirmed, after the peer has received
      it, in some run from the start. */
  lemma EveryDatumCanBeConfirmed(d: Datum) returns (t: State)
    requires (d.number as int) < 0x8000
    ensures LeadsTo(INITIAL, t) && Reachable(t)
    ensures t.blocks == [Block(d, 1, Confirmed)] && d in t.received
  {
    StaysPut(INITIAL);
    var s := Further(INITIAL, INITIAL, Add(d));
    t := HeadCanBeConfirmed(s);
    t := LeadsOn(INITIAL, s, t);
  }

  lemma LeadsOn(s: State, t: State, u: State) returns (same: State)
    requires LeadsTo(s, t) && LeadsTo(t, u)
    ensures same == u && LeadsTo(s, u) && (s == INITIAL ==> Reachable(u))
  {
    same := u;
    var first :| Separate(first) && Legal(s, first) && Exec(s, first) == t;
    var second :| Separate(second) && Legal(t, second) && Exec(t, second) == u;
    ExecInTwo(s, first, second);
    assert Separate(first + second);
  }

  lemma {:induction false} ExecInTwo(s: State, first: seq<Step>, more: seq<Step>)
    requires Legal(s, first) && Legal(Exec(s, first), more)
    ensures Legal(s, first + more) && Exec(s, first + more) == Exec(Exec(s, first), more)
    decreases |first|
  {
    if first == [] {
      EmptyFirst(first, more);
    } else {
      assert (first + more)[1..] == first[1..] + more;
      ExecInTwo(Next(s, first[0]), first[1..], more);
    }
  }

  // ---------------------------------------------------------------- notify and store as one step

  ghost predicate AllAtomic(steps: seq<Step>) {
    forall i :: 0 <= i < |steps| ==> !steps[i].Notify? && !steps[i].Store?
  }

  /** A wake-up whose number is already stored leaves no room for the initial zero. */
  ghost predicate Prompt(s: State) {
    && NetworkIsHonest(s)
    && (s.phase.Woken? ==> PeerHas(s, s.completed))
    && forall i :: 0 <= i < |s.blocks| && s.blocks[i].outcome.Confirmed? ==>
         PeerHas(s, s.blocks[i].datum.number)
  }

  lemma StepKeepsPrompt(s: State, step: Step)
    requires Prompt(s) && Enabled(s, step) && !step.Notify? && !step.Store?
    ensures Prompt(Next(s, step))
  {
    StepKeepsNetworkHonest(s, step);
    forall n | PeerHas(s, n)
      ensures PeerHas(Next(s, step), n)
    {
      PeerKeeps(s, step, n);
    }
  }

  lemma {:induction false} RunKeepsPrompt(s: State, steps: seq<Step>)
    requires Prompt(s) && Legal(s, steps) && AllAtomic(steps)
    ensures Prompt(Exec(s, steps))
    decreases |steps|
  {
    if steps != [] {
      assert !steps[0].Notify? && !steps[0].Store?;
      StepKeepsPrompt(s, steps[0]);
      assert forall i :: 0 <= i < |steps[1..]| ==> steps[1..][i] == steps[i + 1];
      RunKeepsPrompt(Next(s, steps[0]), steps[1..]);
    }
  }

  /** When the notification and the store are one step, zero is no exception. */
  lemma AtomicConfirmedAfterReceipt(steps: seq<Step>)
    requires Legal(INITIAL, steps) && AllAtomic(steps)
    ensures var s := Exec(INITIAL, steps);
            forall b :: b in s.blocks && b.outcome.Confirmed? ==> PeerHas(s, b.datum.number)
  {
    RunKeepsPrompt(INITIAL, steps);
  }

  /** With distinct packet numbers among the accepted data, the confirmed datum
      itself reached the peer, not merely one that shares its number. */
  lemma DistinctNumbersConfirmTheDatum(steps: seq<Step>, b: Block)
    requires Legal(INITIAL, steps)
    requires var s := Exec(INITIAL, steps);
             && b in s.blocks && b.outcome.Confirmed? && b.datum.number != 0
             && forall i, j :: 0 <= i < j < |s.accepted| ==> s.accepted[i].number != s.accepted[j].number
    ensures b.datum in Exec(INITIAL, steps).received
  {
    var s := Exec(INITIAL, steps);
    RunKeepsHonest(INITIAL, steps);
    RunKeepsOrder(INITIAL, steps);
    var d :| d in s.received && d.number == b.datum.number;
    SentIsAccepted(s, d);
    BlockIsAccepted(s, b);
    NumberNamesDatum(s.accepted, d, b.datum);
  }

  lemma NumberNamesDatum(data: seq<Datum>, x: Datum, y: Datum)
    requires forall i, j :: 0 <= i < j < |data| ==> data[i].number != data[j].number
    requires x in data && y in data && x.number == y.number
    ensures x == y
  {
  }

  // ---------------------------------------------------------------- the zero exception is real

  ghost predicate Reachable(s: State) {
    exists steps :: Legal(INITIAL, steps) && Exec(INITIAL, steps) == s
  }

  lemma {:induction false} ExecAppend(s: State, steps: seq<Step>, step: Step)
    requires Legal(s, steps) && Enabled(Exec(s, steps), step)
    ensures Legal(s, steps + [step])
    ensures Exec(s, steps + [step]) == Next(Exec(s, steps), step)
    decreases |steps|
  {
    var all := steps + [step];
    if steps == [] {
      assert all[1..] == [] && Legal(Next(s, step), all[1..]);
      assert Exec(Next(s, step), all[1..]) == Next(s, step);
    } else {
      assert all[1..] == steps[1..] + [step];
      ExecAppend(Next(s, steps[0]), steps[1..], step);
    }
  }

  lemma Reach(s: State, step: Step) returns (t: State)
    requires Reachable(s) && Enabled(s, step)
    ensures t == Next(s, step) && Reachable(t)
  {
    var steps :| Legal(INITIAL, steps) && Exec(INITIAL, steps) == s;
    ExecAppend(INITIAL, steps, step);
    t := Next(s, step);
  }

  /** Every datum can be given up: it is sent twelve times and every wait times out. */
  lemma {:induction false} AllTimeOut(s: State) returns (t: State)
    requires Reachable(s) && s.phase.Ready? && s.phase.sends < REPEAT_COUNT
    ensures Reachable(t)
    ensures t.phase == Idle && t.queue == s.queue && t.completed == s.completed
    ensures t.stores == s.stores && t.received == s.received
    ensures t.blocks == s.blocks + [Block(s.phase.datum, 12, GaveUp)]
    ensures Data(Pack(s.phase.datum.number, DATA_TAG), s.phase.datum) in t.network
    decreases REPEAT_COUNT - s.phase.sends
  {
    t := Reach(s, Transmit);
    t := Reach(t, TimeOut);
    if t.phase.Ready? {
      t := AllTimeOut(t);
    }
  }

  /** Packet 5 is taken first, packet 0 waits behind it, and every wait for 5 times
      out. */
  lemma FiveIsGivenUp(five: Datum, zero: Datum) returns (s: State)
    ensures Reachable(s)
    ensures s.phase == Idle && s.queue == [zero] && s.completed == 0
    ensures s.stores == multiset{} && s.received == {}
    ensures Data(Pack(five.number, DATA_TAG), five) in s.network
  {
    assert Legal(INITIAL, []) && Exec(INITIAL, []) == INITIAL;
    s := Reach(INITIAL, Add(five));
    s := Reach(s, Add(zero));
    s := Reach(s, Take);
    s := AllTimeOut(s);
  }

  /** A run with a single receiving thread in which a datum numbered zero is
      confirmed although the peer never received it: packet 5 is given up after 12
      timeouts, then its late acknowledgement wakes the wait for packet 0 before
      the 5 is stored, and the sender reads the initial zero. */
  lemma ZeroCanBeConfirmedUnreceived() returns (s: State, b: Block)
    ensures Reachable(s)
    ensures b in s.blocks && b.outcome.Confirmed? && !PeerHas(s, b.datum.number)
    ensures |s.stores| <= 1
  {
    var five, zero := Datum(0, 5), Datum(1, 0);
    var data := Data(Pack(5, DATA_TAG), five);
    UnpackPack(5, DATA_TAG);
    AckReturnsNumber(5);
    s := FiveIsGivenUp(five, zero);
    s := Reach(s, DeliverData(data));
    s := Reach(s, Take);
    s := Reach(s, Transmit);
    s := Reach(s, Notify(Ack(AckFor(data.header))));
    s := Reach(s, Compare);
    b := s.blocks[|s.blocks| - 1];
    assert s.received == {five};
  }

  // ---------------------------------------------------------------- the transmission trace

  ghost function Repeat(d: Datum, k: nat): seq<Datum> {
    if k == 0 then [] else Repeat(d, k - 1) + [d]
  }

  ghost function Transmissions(blocks: seq<Block>): seq<Datum> {
    if blocks == [] then []
    else Transmissions(blocks[..|blocks| - 1])
         + Repeat(blocks[|blocks| - 1].datum, blocks[|blocks| - 1].sends)
  }

  ghost function DataOf(blocks: seq<Block>): seq<Datum> {
    if blocks == [] then [] else DataOf(blocks[..|blocks| - 1]) + [blocks[|blocks| - 1].datum]
  }

  ghost function Current(p: Phase): seq<Datum> {
    if p.Idle? then [] else [p.datum]
  }

  ghost predicate Sound(b: Block) {
    1 <= b.sends <= REPEAT_COUNT && (b.outcome.GaveUp? ==> b.sends == REPEAT_COUNT)
  }

  /** The data are worked off in acceptance order, and the transmissions so far are
      the finished blocks one after the other, then the repetitions of the current
      datum. */
  ghost predicate InOrder(s: State) {
    && s.accepted == DataOf(s.blocks) + Current(s.phase) + s.queue
    && s.sent == Transmissions(s.blocks) + (if s.phase.Idle? then [] else Repeat(s.phase.datum, s.phase.sends))
    && (forall i :: 0 <= i < |s.blocks| ==> Sound(s.blocks[i]))
    && (s.phase.Ready? ==> s.phase.sends < REPEAT_COUNT)
    && (s.phase.Waiting? || s.phase.Woken? ==> 1 <= s.phase.sends <= REPEAT_COUNT)
    && |s.queue| <= QUEUE_CAPACITY
  }

  lemma CloseKeepsOrder(s: State, outcome: Outcome)
    requires InOrder(s) && (s.phase.Waiting? || s.phase.Woken?)
    requires outcome.GaveUp? ==> s.phase.sends == REPEAT_COUNT
    ensures InOrder(Close(s, outcome))
  {
  }

  lemma AddKeepsOrder(s: State, d: Datum)
    requires InOrder(s)
    ensures InOrder(Next(s, Add(d)))
  {
  }

  lemma TakeKeepsOrder(s: State)
    requires InOrder(s) && Enabled(s, Take)
    ensures InOrder(Next(s, Take))
  {
  }

  lemma TransmitKeepsOrder(s: State)
    requires InOrder(s) && Enabled(s, Transmit)
    ensures InOrder(Next(s, Transmit))
  {
  }

  lemma StepKeepsOrder(s: State, step: Step)
    requires InOrder(s) && Enabled(s, step)
    ensures InOrder(Next(s, step))
  {
    match step
    case Add(d) => AddKeepsOrder(s, d);
    case Take => TakeKeepsOrder(s);
    case Transmit => TransmitKeepsOrder(s);
    case TimeOut =>
      if s.phase.sends >= REPEAT_COUNT {
        CloseKeepsOrder(s, GaveUp);
      }
    case Compare =>
      CloseKeepsOrder(s, if SenderAccepts(s.phase.datum.number, s.completed) then Confirmed else WrongNumber);
    case _ =>
  }

  /** In every run the transmission trace is the accepted order with each datum in
      one contiguous block of 1 to 12 sends, closed as confirmed, wrong number or
      twelve timeouts. */
  lemma {:induction false} RunKeepsOrder(s: State, steps: seq<Step>)
    requires InOrder(s) && Legal(s, steps)
    ensures InOrder(Exec(s, steps))
    decreases |steps|
  {
    if steps != [] {
      StepKeepsOrder(s, steps[0]);
      RunKeepsOrder(Next(s, steps[0]), steps[1..]);
    }
  }

  lemma {:induction false} InRepeat(d: Datum, k: nat, x: Datum)
    requires x in Repeat(d, k)
    ensures x == d
  {
    if x != d {
      InRepeat(d, k - 1, x);
    }
  }

  lemma {:induction false} InTransmissions(blocks: seq<Block>, x: Datum)
    requires x in Transmissions(blocks)
    ensures x in DataOf(blocks)
  {
    var last := blocks[|blocks| - 1];
    if x in Repeat(last.datum, last.sends) {
      InRepeat(last.datum, last.sends, x);
    } else {
      InTransmissions(blocks[..|blocks| - 1], x);
    }
  }

  lemma SentIsAccepted(s: State, x: Datum)
    requires InOrder(s) && NetworkIsHonest(s) && x in s.received
    ensures x in s.accepted
  {
    if x in Transmissions(s.blocks) {
      InTransmissions(s.blocks, x);
    } else {
      InRepeat(s.phase.datum, s.phase.sends, x);
    }
  }

  lemma {:induction false} InDataOf(blocks: seq<Block>, b: Block)
    requires b in blocks
    ensures b.datum in DataOf(blocks)
  {
    if b != blocks[|blocks| - 1] {
      InDataOf(blocks[..|blocks| - 1], b);
    }
  }

  lemma BlockIsAccepted(s: State, b: Block)
    requires InOrder(s) && b in s.blocks
    ensures b.datum in s.accepted
  {
    InDataOf(s.blocks, b);
  }
}
