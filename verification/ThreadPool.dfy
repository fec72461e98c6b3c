/** The thread pool: a bounded job queue served by workers, and two future lists
    that one processing thread swaps and sweeps.  Jobs and futures are named by
    the number of the EnqueueJob call that made them. */
module ThreadPools {
  import opened Sequences
  import opened CircularQueues
  import opened CircularLinkedLists
  import opened FutureSweeps

  const MAX_QUEUE_LENGTH: nat := 400

  // ---------------------------------------------------------------- interleavings

  datatype Cursor = Idle | On(at: nat)

  /** `inFlight` holds futures whose job was offered to the queue but which have
      not reached the stock list yet; `handled`, `accepted`, `started` and
      `finished` are histories. */
  datatype Pool = Pool(
    issued: nat,
    inFlight: set<nat>,
    stock: seq<nat>,
    processing: seq<nat>,
    cursor: Cursor,
    handled: seq<nat>,
    jobs: seq<nat>,
    accepted: seq<nat>,
    started: seq<nat>,
    finished: set<nat>)

  const INITIAL := Pool(0, {}, [], [], Idle, [], [], [], [], {})

  /** The atomic steps: each is one critical section, or code that touches only
      what its own thread owns. */
  datatype Step =
    | OfferJob                // EnqueueJob, first critical section
    | StockFuture(id: nat)    // EnqueueJob, second critical section
    | StartJob                // a worker pops under the queue's mutex
    | FinishJob(id: nat)
    | BeginSweep              // the processing thread wakes, perhaps swaps, and unlocks
    | VisitFuture(ready: bool)

  ghost predicate Enabled(p: Pool, step: Step) {
    match step
    case OfferJob => true
    case StockFuture(id) => id in p.inFlight
    case StartJob => p.jobs != []
    case FinishJob(id) => id in p.started
    case BeginSweep => p.cursor == Idle && (p.stock != [] || p.processing != [])
    case VisitFuture(ready) =>
      && p.cursor.On?
      && p.cursor.at < |p.processing|
      // a future becomes ready when its job ran, or when its job was dropped
      && (ready ==> var id := p.processing[p.cursor.at]; id in p.finished || id !in p.accepted)
  }

  ghost function Next(p: Pool, step: Step): Pool
    requires Enabled(p, step)
  {
    match step
    case OfferJob =>
      var offered := p.(issued := p.issued + 1, inFlight := p.inFlight + {p.issued});
      if |p.jobs| < MAX_QUEUE_LENGTH - 1
      then offered.(jobs := p.jobs + [p.issued], accepted := p.accepted + [p.issued])
      else offered
    case StockFuture(id) => p.(inFlight := p.inFlight - {id}, stock := p.stock + [id])
    case StartJob => p.(jobs := p.jobs[1..], started := p.started + [p.jobs[0]])
    case FinishJob(id) => p.(finished := p.finished + {id})
    case BeginSweep =>
      var swapped := if p.processing == [] then p.(processing := p.stock, stock := []) else p;
      swapped.(cursor := On(0))
    case VisitFuture(ready) =>
      var at := p.cursor.at;
      if ready then
        p.(processing := Without(p.processing, at),
           handled := p.handled + [p.processing[at]],
           cursor := if at == 0 then Idle else On(at - 1))
      else p.(cursor := if at + 1 == |p.processing| then Idle else On(at + 1))
  }

  /** Where a future may be. */
  ghost function Places(p: Pool): multiset<nat> {
    multiset(p.inFlight) + multiset(p.stock) + multiset(p.processing) + multiset(p.handled)
  }

  ghost predicate Increasing(s: seq<nat>, below: nat) {
    && (forall i :: 0 <= i < |s| ==> s[i] < below)
    && forall i, j :: 0 <= i < j < |s| ==> s[i] < s[j]
  }

  /** Every issued future is in exactly one place. */
  ghost predicate EachInOnePlace(p: Pool) {
    forall id: nat :: Places(p)[id] == if id < p.issued then 1 else 0
  }

  /** Jobs were accepted in the order offered and start in that order, each at most
      once. */
  ghost predicate JobsInOrder(p: Pool) {
    && Increasing(p.accepted, p.issued)
    && p.accepted == p.started + p.jobs
    && |p.jobs| < MAX_QUEUE_LENGTH
  }

  /** Whatever was handled had its job started or dropped. */
  ghost predicate HandledAfterStart(p: Pool) {
    && (forall id :: id in p.finished ==> id in p.started)
    && forall id :: id in p.handled ==> id < p.issued && (id in p.started || id !in p.accepted)
  }

  ghost predicate CursorInside(p: Pool) {
    p.cursor.On? ==> p.cursor.at < |p.processing|
  }

  ghost predicate Inv(p: Pool) {
    EachInOnePlace(p) && JobsInOrder(p) && HandledAfterStart(p) && CursorInside(p)
  }

  lemma OfferAddsOnePlace(p: Pool)
    requires EachInOnePlace(p)
    ensures Places(Next(p, OfferJob)) == Places(p) + multiset{p.issued}
  {
  }

  lemma StockKeepsPlaces(p: Pool, id: nat)
    requires id in p.inFlight
    ensures Places(Next(p, StockFuture(id))) == Places(p)
  {
  }

  lemma BeginKeepsPlaces(p: Pool)
    requires Enabled(p, BeginSweep)
    ensures Places(Next(p, BeginSweep)) == Places(p)
  {
  }

  lemma VisitKeepsPlaces(p: Pool, ready: bool)
    requires Enabled(p, VisitFuture(ready))
    ensures Places(Next(p, VisitFuture(ready))) == Places(p)
  {
    if ready {
      WithoutRemovesOne(p.processing, p.cursor.at);
    }
  }

  /** Only an offer adds a place, for the future it issues. */
  lemma PlacesAfter(p: Pool, step: Step)
    requires EachInOnePlace(p) && Enabled(p, step)
    ensures Places(Next(p, step)) == Places(p) + (if step.OfferJob? then multiset{p.issued} else multiset{})
  {
    match step
    case OfferJob => OfferAddsOnePlace(p);
    case StockFuture(id) => StockKeepsPlaces(p, id);
    case BeginSweep => BeginKeepsPlaces(p);
    case VisitFuture(ready) => VisitKeepsPlaces(p, ready);
    case _ =>
  }

  lemma StepKeepsOnePlace(p: Pool, step: Step)
    requires EachInOnePlace(p) && Enabled(p, step)
    ensures EachInOnePlace(Next(p, step))
  {
    var (q, places) := (Next(p, step), Places(p));
    PlacesAfter(p, step);
    assert q.issued == if step.OfferJob? then p.issued + 1 else p.issued;
    forall id: nat
      ensures Places(q)[id] == if id < q.issued then 1 else 0
    {
      assert places[id] == if id < p.issued then 1 else 0;
    }
  }

  lemma StepKeepsJobOrder(p: Pool, step: Step)
    requires JobsInOrder(p) && Enabled(p, step)
    ensures JobsInOrder(Next(p, step))
  {
    match step
    case OfferJob => assert (p.started + p.jobs) + [p.issued] == p.started + (p.jobs + [p.issued]);
    case StartJob => assert p.started + p.jobs == (p.started + [p.jobs[0]]) + p.jobs[1..];
    case _ =>
  }

  lemma StepKeepsHandledAfterStart(p: Pool, step: Step)
    requires Inv(p) && Enabled(p, step)
    ensures HandledAfterStart(Next(p, step)) && CursorInside(Next(p, step))
  {
    match step
    case VisitFuture(ready) =>
      var id := p.processing[p.cursor.at];
      assert Places(p)[id] > 0;
    case _ =>
  }

  lemma StepKeepsInv(p: Pool, step: Step)
    requires Inv(p) && Enabled(p, step)
    ensures Inv(Next(p, step))
  {
    StepKeepsOnePlace(p, step);
    StepKeepsJobOrder(p, step);
    StepKeepsHandledAfterStart(p, step);
  }

  ghost predicate Legal(p: Pool, steps: seq<Step>)
    decreases |steps|
  {
    steps == [] || (Enabled(p, steps[0]) && Legal(Next(p, steps[0]), steps[1..]))
  }

  ghost function Exec(p: Pool, steps: seq<Step>): Pool
    requires Legal(p, steps)
    decreases |steps|
  {
    if steps == [] then p else Exec(Next(p, steps[0]), steps[1..])
  }

  lemma {:induction false} RunKeepsInv(p: Pool, steps: seq<Step>)
    requires Inv(p) && Legal(p, steps)
    ensures Inv(Exec(p, steps))
    decreases |steps|
  {
    if steps != [] {
      StepKeepsInv(p, steps[0]);
      RunKeepsInv(Next(p, steps[0]), steps[1..]);
    }
  }

  /** Over every interleaving from the start: each future is in exactly one place
      and is handled at most once, and the started jobs are a prefix of the
      accepted ones, each started once. */
  lemma EveryRunIsOrderly(steps: seq<Step>)
    requires Legal(INITIAL, steps)
    ensures var p := Exec(INITIAL, steps);
            && (forall id: nat :: id < p.issued ==> Places(p)[id] == 1)
            && (forall i, j :: 0 <= i < j < |p.handled| ==> p.handled[i] != p.handled[j])
            && p.started <= p.accepted
            && (forall i, j :: 0 <= i < j < |p.started| ==> p.started[i] < p.started[j])
            && (forall id :: id in p.handled ==> id in p.started || id !in p.accepted)
  {
    InitialIsSound();
    RunKeepsInv(INITIAL, steps);
    var p := Exec(INITIAL, steps);
    assert forall i :: 0 <= i < |p.started| ==> p.started[i] == p.accepted[i];
    assert forall id: nat :: multiset(p.handled)[id] <= Places(p)[id];
    CountedOnceIsDistinct(p.handled);
  }

  // ---------------------------------------------------------------- what the steps say

  /** The offers, the length of the job queue, and the ids whose offer was dropped, as
      the steps alone spell them. */
  datatype Tally = Tally(offers: nat, backlog: nat, dropped: set<nat>, finished: set<nat>)

  ghost function Counted(t: Tally, step: Step): Tally {
    match step
    case OfferJob =>
      if t.backlog < 399 then t.(offers := t.offers + 1, backlog := t.backlog + 1)
      else t.(offers := t.offers + 1, dropped := t.dropped + {t.offers})
    case StartJob => if t.backlog > 0 then t.(backlog := t.backlog - 1) else t
    case FinishJob(id) => t.(finished := t.finished + {id})
    case _ => t
  }

  ghost function TallyOf(t: Tally, steps: seq<Step>): Tally
    decreases |steps|
  {
    if steps == [] then t else TallyOf(Counted(t, steps[0]), steps[1..])
  }

  ghost predicate Tallies(p: Pool, t: Tally) {
    && p.issued == t.offers && |p.jobs| == t.backlog && p.finished == t.finished
    && forall id: nat :: id in t.dropped <==> id < p.issued && id !in p.accepted
  }

  lemma StepTallies(p: Pool, step: Step, t: Tally)
    requires JobsInOrder(p) && Tallies(p, t) && Enabled(p, step)
    ensures Tallies(Next(p, step), Counted(t, step))
  {
  }

  lemma {:induction false} RunTallies(p: Pool, steps: seq<Step>, t: Tally)
    requires JobsInOrder(p) && Tallies(p, t) && Legal(p, steps)
    ensures Tallies(Exec(p, steps), TallyOf(t, steps))
    decreases |steps|
  {
    if steps != [] {
      StepTallies(p, steps[0], t);
      StepKeepsJobOrder(p, steps[0]);
      RunTallies(Next(p, steps[0]), steps[1..], Counted(t, steps[0]));
    }
  }

  const NOTHING := Tally(0, 0, {}, {})

  lemma {:induction false} FinishedBySteps(t: Tally, steps: seq<Step>, id: nat)
    ensures id in TallyOf(t, steps).finished <==> id in t.finished || FinishJob(id) in steps
    decreases |steps|
  {
    if steps != [] {
      FinishedBySteps(Counted(t, steps[0]), steps[1..], id);
      assert FinishJob(id) in steps <==> steps[0] == FinishJob(id) || FinishJob(id) in steps[1..];
    }
  }

  lemma UnderCursor(p: Pool, t: Tally)
    requires Inv(p) && Tallies(p, t) && p.cursor.On?
    ensures p.cursor.at < |p.processing|
    ensures var id := p.processing[p.cursor.at];
            Enabled(p, VisitFuture(true)) <==> id in t.finished || id in t.dropped
  {
    var id := p.processing[p.cursor.at];
    assert Places(p)[id] > 0;
  }

  lemma InitialIsSound()
    ensures Inv(INITIAL) && Tallies(INITIAL, NOTHING)
  {
    assert Places(INITIAL) == multiset{};
  }

  /** In every run, the future under the cursor may answer ready exactly when its
      FinishJob stands among the steps, or its offer met a queue of 399. */
  lemma MayAnswerReadyIff(steps: seq<Step>)
    requires Legal(INITIAL, steps) && Exec(INITIAL, steps).cursor.On?
    ensures var p := Exec(INITIAL, steps);
            && p.cursor.at < |p.processing|
            && var id := p.processing[p.cursor.at];
            Enabled(p, VisitFuture(true))
            <==> FinishJob(id) in steps || id in TallyOf(NOTHING, steps).dropped
  {
    InitialIsSound();
    RunKeepsInv(INITIAL, steps);
    RunTallies(INITIAL, steps, NOTHING);
    UnderCursor(Exec(INITIAL, steps), TallyOf(NOTHING, steps));
    var p := Exec(INITIAL, steps);
    FinishedBySteps(NOTHING, steps, p.processing[p.cursor.at]);
  }

  // ---------------------------------------------------------------- every future can be handled

  ghost predicate LeadsTo(p: Pool, q: Pool) {
    exists steps :: Legal(p, steps) && Exec(p, steps) == q
  }

  lemma {:induction false} ExecInTwo(p: Pool, first: seq<Step>, more: seq<Step>)
    requires Legal(p, first) && Legal(Exec(p, first), more)
    ensures Legal(p, first + more) && Exec(p, first + more) == Exec(Exec(p, first), more)
    decreases |first|
  {
    if first == [] {
      EmptyFirst(first, more);
    } else {
      assert (first + more)[1..] == first[1..] + more;
      ExecInTwo(Next(p, first[0]), first[1..], more);
    }
  }

  lemma StaysPut(p: Pool)
    ensures LeadsTo(p, p)
  {
    assert Legal(p, []) && Exec(p, []) == p;
  }

  lemma LeadsOn(p: Pool, q: Pool, r: Pool)
    requires LeadsTo(p, q) && LeadsTo(q, r)
    ensures LeadsTo(p, r)
  {
    var first :| Legal(p, first) && Exec(p, first) == q;
    var more :| Legal(q, more) && Exec(q, more) == r;
    ExecInTwo(p, first, more);
  }

  lemma Further(p: Pool, q: Pool, step: Step) returns (r: Pool)
    requires LeadsTo(p, q) && Inv(q) && Enabled(q, step)
    ensures r == Next(q, step) && LeadsTo(p, r) && Inv(r)
  {
    r := Next(q, step);
    StepKeepsInv(q, step);
    OneStep(q, step);
    LeadsOn(p, q, r);
  }

  lemma OneStep(p: Pool, step: Step)
    requires Enabled(p, step)
    ensures LeadsTo(p, Next(p, step))
  {
    var steps := [step];
    assert steps[1..] == [];
    var q := Next(p, steps[0]);
    assert Legal(q, steps[1..]) && Exec(q, steps[1..]) == q;
    assert Legal(p, steps) && Exec(p, steps) == q;
  }

  /** The futures that left EnqueueJob half-way reach the stock list. */
  lemma {:induction false} AllStocked(p: Pool) returns (q: Pool)
    requires Inv(p)
    ensures LeadsTo(p, q) && Inv(q) && q.inFlight == {} && q.issued == p.issued
    decreases |p.inFlight|
  {
    StaysPut(p);
    if p.inFlight == {} {
      q := p;
    } else {
      var id :| id in p.inFlight;
      var next := Further(p, p, StockFuture(id));
      q := AllStocked(next);
      LeadsOn(p, next, q);
    }
  }

  /** The queued jobs are started. */
  lemma {:induction false} AllStarted(p: Pool) returns (q: Pool)
    requires Inv(p)
    ensures LeadsTo(p, q) && Inv(q) && q.jobs == [] && q.inFlight == p.inFlight && q.issued == p.issued
    decreases |p.jobs|
  {
    StaysPut(p);
    if p.jobs == [] {
      q := p;
    } else {
      var next := Further(p, p, StartJob);
      q := AllStarted(next);
      LeadsOn(p, next, q);
    }
  }

  /** The first n started jobs are finished. */
  lemma {:induction false} AllFinished(p: Pool, n: nat) returns (q: Pool)
    requires Inv(p) && n <= |p.started|
    ensures LeadsTo(p, q) && Inv(q) && q == p.(finished := q.finished)
    ensures forall i :: 0 <= i < n ==> p.started[i] in q.finished
    decreases n
  {
    StaysPut(p);
    if n == 0 {
      q := p;
    } else {
      q := AllFinished(p, n - 1);
      q := Further(p, q, FinishJob(p.started[n - 1]));
    }
  }

  /** The round that is under way ends. */
  lemma RoundEnds(p: Pool) returns (q: Pool)
    requires Inv(p)
    ensures LeadsTo(p, q) && Inv(q) && q.cursor.Idle?
    ensures q == p.(processing := q.processing, handled := q.handled, cursor := q.cursor)
  {
    var steps := VisitsExist(p, (n: nat, id: nat) => false, 0);
    RunKeepsInv(p, steps);
    VisitsKeepTheRest(p, steps);
    q := Exec(p, steps);
  }

  /** With nothing in flight and every job done, round after round handles the rest. */
  lemma {:induction false} AllHandled(p: Pool) returns (q: Pool)
    requires Inv(p) && p.cursor.Idle? && p.inFlight == {}
    requires forall id :: id in p.accepted ==> id in p.finished
    ensures LeadsTo(p, q) && Inv(q) && q.issued == p.issued
    ensures q.stock == [] && q.processing == [] && q.inFlight == {}
    decreases |p.stock| + |p.processing|
  {
    StaysPut(p);
    if p.stock == [] && p.processing == [] {
      q := p;
    } else {
      var begun := Further(p, p, BeginSweep);
      var next := Further(p, begun, VisitFuture(true));
      q := AllHandled(next);
      LeadsOn(p, next, q);
    }
  }

  /** From every reachable pool some legal continuation handles every future issued so
      far: no interleaving leaves a future behind for good. */
  lemma EveryFutureCanBeHandled(steps: seq<Step>) returns (q: Pool)
    requires Legal(INITIAL, steps)
    ensures var p := Exec(INITIAL, steps);
            LeadsTo(p, q) && q.issued == p.issued && forall id: nat :: id < p.issued ==> id in q.handled
  {
    var p := Exec(INITIAL, steps);
    InitialIsSound();
    RunKeepsInv(INITIAL, steps);
    var a := AllStocked(p);
    var b := AllStarted(a);
    var c := AllFinished(b, |b.started|);
    var d := RoundEnds(c);
    q := AllHandled(d);
    LeadsOn(p, a, b);
    LeadsOn(p, b, c);
    LeadsOn(p, c, d);
    LeadsOn(p, d, q);
    forall id: nat | id < p.issued
      ensures id in q.handled
    {
      assert Places(q)[id] == 1;
    }
  }

  // ---------------------------------------------------------------- one round

  /** The answers of the visits of a run. */
  ghost function Answers(steps: seq<Step>): seq<bool> {
    if steps == [] then []
    else if steps[0].VisitFuture? then [steps[0].ready] + Answers(steps[1..])
    else Answers(steps[1..])
  }

  /** The futures that a run adds to the stock list. */
  ghost function Stocked(steps: seq<Step>): seq<nat> {
    if steps == [] then []
    else if steps[0].StockFuture? then [steps[0].id] + Stocked(steps[1..])
    else Stocked(steps[1..])
  }

  ghost predicate NoBegin(steps: seq<Step>) {
    forall i :: 0 <= i < |steps| ==> !steps[i].BeginSweep?
  }

  ghost function ByNumber(answers: seq<bool>): Readiness<nat> {
    (n: nat, id: nat) => n < |answers| && answers[n]
  }

  /** The sweep that the cursor is in the middle of; none when it is idle. */
  ghost function Unfinished(p: Pool, ready: Readiness<nat>, asked: nat): Swept<nat>
    requires CursorInside(p)
  {
    if p.cursor.Idle? then Swept(p.processing, [], asked) else Sweep(p.processing, p.cursor.at, ready, asked)
  }

  /** A visit is one round of the sweep. */
  lemma VisitSweeps(p: Pool, answer: bool, ready: Readiness<nat>, asked: nat)
    requires CursorInside(p) && Enabled(p, VisitFuture(answer)) && ready(asked, p.processing[p.cursor.at]) == answer
    ensures var q := Next(p, VisitFuture(answer));
            && CursorInside(q)
            && var (s, t) := (Unfinished(p, ready, asked), Unfinished(q, ready, asked + 1));
            s.rest == t.rest && s.asked == t.asked && p.handled + s.handled == q.handled + t.handled
  {
    var (items, at) := (p.processing, p.cursor.at);
    if answer {
      var t := Unfinished(Next(p, VisitFuture(answer)), ready, asked + 1);
      assert at == 0 ==> Without(items, at) == items[1..];
      assert p.handled + ([items[at]] + t.handled) == (p.handled + [items[at]]) + t.handled;
    } else {
      assert at + 1 == |items| ==> Sweep(items, at + 1, ready, asked + 1) == Swept(items, [], asked + 1);
    }
  }

  /** Steps of the other threads do not touch the sweep. */
  lemma OthersDoNotSweep(p: Pool, step: Step)
    requires Enabled(p, step) && !step.BeginSweep? && !step.VisitFuture?
    ensures var q := Next(p, step);
            q.processing == p.processing && q.handled == p.handled && q.cursor == p.cursor
  {
  }

  /** Each visit of the run answers as `ready` says, the first one as its answer number
      `asked`. */
  ghost predicate Follows(p: Pool, steps: seq<Step>, ready: Readiness<nat>, asked: nat)
    requires Legal(p, steps)
    decreases |steps|
  {
    steps == [] ||
    if steps[0].VisitFuture? then
      && steps[0].ready == ready(asked, p.processing[p.cursor.at])
      && Follows(Next(p, steps[0]), steps[1..], ready, asked + 1)
    else Follows(Next(p, steps[0]), steps[1..], ready, asked)
  }

  /** The visits of a run complete the sweep, whatever other steps stand in between. */
  lemma {:induction false} VisitsMakeASweep(p: Pool, steps: seq<Step>, ready: Readiness<nat>, asked: nat)
    requires CursorInside(p) && Legal(p, steps) && NoBegin(steps) && Exec(p, steps).cursor.Idle?
    requires Follows(p, steps, ready, asked)
    ensures var (s, q) := (Unfinished(p, ready, asked), Exec(p, steps));
            s.asked == asked + |Answers(steps)| && q.processing == s.rest && q.handled == p.handled + s.handled
    decreases |steps|
  {
    if steps != [] {
      var (q, rest) := (Next(p, steps[0]), steps[1..]);
      assert forall i :: 0 <= i < |rest| ==> rest[i] == steps[i + 1];
      if steps[0].VisitFuture? {
        VisitSweeps(p, steps[0].ready, ready, asked);
        VisitsMakeASweep(q, rest, ready, asked + 1);
      } else {
        OthersDoNotSweep(p, steps[0]);
        VisitsMakeASweep(q, rest, ready, asked);
      }
    }
  }

  /** Every run follows its own answers. */
  lemma {:induction false} FollowsItself(p: Pool, steps: seq<Step>, answers: seq<bool>, asked: nat)
    requires Legal(p, steps) && asked <= |answers| && answers[asked..] == Answers(steps)
    ensures Follows(p, steps, ByNumber(answers), asked)
    decreases |steps|
  {
    if steps != [] {
      if steps[0].VisitFuture? {
        assert answers[asked] == answers[asked..][0] == steps[0].ready;
        assert answers[asked + 1..] == answers[asked..][1..] == Answers(steps[1..]);
        FollowsItself(Next(p, steps[0]), steps[1..], answers, asked + 1);
      } else {
        FollowsItself(Next(p, steps[0]), steps[1..], answers, asked);
      }
    }
  }

  lemma {:induction false} StockGrows(p: Pool, steps: seq<Step>)
    requires Legal(p, steps) && NoBegin(steps)
    ensures Exec(p, steps).stock == p.stock + Stocked(steps)
    decreases |steps|
  {
    if steps != [] {
      var rest := steps[1..];
      assert forall i :: 0 <= i < |rest| ==> rest[i] == steps[i + 1];
      StockGrows(Next(p, steps[0]), rest);
    }
  }

  /** The run begins a round and ends with the cursor idle; steps of other threads may
      stand in between. */
  ghost predicate IsRound(p: Pool, steps: seq<Step>) {
    && p.cursor.Idle? && NoBegin(steps)
    && Enabled(p, BeginSweep) && Legal(Next(p, BeginSweep), steps)
    && AfterRound(p, steps).cursor.Idle?
  }

  ghost function AfterRound(p: Pool, steps: seq<Step>): Pool
    requires Enabled(p, BeginSweep) && Legal(Next(p, BeginSweep), steps)
  {
    Exec(Next(p, BeginSweep), steps)
  }

  /** The processing list, the handled record and the stock list change as one
      conditional swap, one sweep by the answers of the visits, and the stockings of
      the round say. */
  lemma RoundSweeps(p: Pool, steps: seq<Step>, ready: Readiness<nat>)
    requires IsRound(p, steps) && Follows(Next(p, BeginSweep), steps, ready, 0)
    ensures var (q, swap) := (AfterRound(p, steps), p.processing == []);
            var s := Sweep(if swap then p.stock else p.processing, 0, ready, 0);
            && q.processing == s.rest
            && q.handled == p.handled + s.handled
            && q.stock == (if swap then [] else p.stock) + Stocked(steps)
            && s.asked == |Answers(steps)|
  {
    VisitsMakeASweep(Next(p, BeginSweep), steps, ready, 0);
    StockGrows(Next(p, BeginSweep), steps);
  }

  /** So in every round, whatever the visits answered. */
  lemma RoundIsOneSweep(p: Pool, steps: seq<Step>)
    requires p.cursor.Idle? && Legal(p, [BeginSweep] + steps) && NoBegin(steps)
    requires Exec(p, [BeginSweep] + steps).cursor.Idle?
    ensures var (q, swap) := (Exec(p, [BeginSweep] + steps), p.processing == []);
            var s := Sweep(if swap then p.stock else p.processing, 0, ByNumber(Answers(steps)), 0);
            && q.processing == s.rest
            && q.handled == p.handled + s.handled
            && q.stock == (if swap then [] else p.stock) + Stocked(steps)
            && s.asked == |Answers(steps)|
  {
    assert ([BeginSweep] + steps)[1..] == steps;
    assert Answers(steps)[0..] == Answers(steps);
    FollowsItself(Next(p, BeginSweep), steps, Answers(steps), 0);
    RoundSweeps(p, steps, ByNumber(Answers(steps)));
  }

  // ---------------------------------------------------------------- round after round

  /** Rounds on the same processing list, in which a future answers ready exactly when
      it is one of `done`. */
  ghost predicate AreSteadyRounds(p: Pool, rounds: seq<seq<Step>>, done: nat -> bool)
    decreases |rounds|
  {
    rounds == [] ||
    (p.processing != [] && IsRound(p, rounds[0])
     && Follows(Next(p, BeginSweep), rounds[0], Steady(done), 0)
     && AreSteadyRounds(AfterRound(p, rounds[0]), rounds[1..], done))
  }

  ghost function AfterRounds(p: Pool, rounds: seq<seq<Step>>, done: nat -> bool): Pool
    requires AreSteadyRounds(p, rounds, done)
    decreases |rounds|
  {
    if rounds == [] then p else AfterRounds(AfterRound(p, rounds[0]), rounds[1..], done)
  }

  lemma {:induction false} SteadyRoundsSweep(p: Pool, rounds: seq<seq<Step>>, done: nat -> bool)
    requires AreSteadyRounds(p, rounds, done)
    ensures var (q, n) := (AfterRounds(p, rounds, done), |rounds|);
            && q.processing == Rounds(p.processing, done, n).0
            && q.handled == p.handled + Rounds(p.processing, done, n).1
    decreases |rounds|
  {
    if rounds != [] {
      RoundSweeps(p, rounds[0], Steady(done));
      SteadyRoundsSweep(AfterRound(p, rounds[0]), rounds[1..], done);
    }
  }

  /** How long a ready future waits: with steady answers, the ready futures of the
      processing list are all handled, in order, exactly from as many rounds on as
      there are ready ones at its front, plus one if another is ready. */
  lemma ReadyAreHandledIff(p: Pool, rounds: seq<seq<Step>>, done: nat -> bool)
    requires AreSteadyRounds(p, rounds, done)
    ensures AfterRounds(p, rounds, done).handled == p.handled + Select(p.processing, done)
            <==> |rounds| >= RoundsNeeded(p.processing, done)
  {
    var handled := Rounds(p.processing, done, |rounds|).1;
    SteadyRoundsSweep(p, rounds, done);
    RoundsAreCompleteIff(p.processing, done, |rounds|);
    PrefixCancels(p.handled, handled, Select(p.processing, done));
  }

  lemma PrefixCancels(prefix: seq<nat>, s: seq<nat>, t: seq<nat>)
    ensures prefix + s == prefix + t <==> s == t
  {
    assert s == (prefix + s)[|prefix|..] && t == (prefix + t)[|prefix|..];
  }

  // ---------------------------------------------------------------- whole calls

  /** EnqueueJob, with no step of another thread in between. */
  lemma EnqueueIsTwoSteps(p: Pool)
    ensures var steps := [OfferJob, StockFuture(p.issued)];
            && Legal(p, steps)
            && var q := Exec(p, steps);
            && q.jobs == (if |p.jobs| < MAX_QUEUE_LENGTH - 1 then p.jobs + [p.issued] else p.jobs)
            && q.stock == p.stock + [p.issued] && q.processing == p.processing && q.cursor == p.cursor
  {
    var offered := Next(p, OfferJob);
    var steps := [OfferJob, StockFuture(p.issued)];
    assert steps[1..] == [StockFuture(p.issued)] && steps[1..][1..] == [];
    assert Legal(offered, steps[1..]) && Exec(offered, steps[1..]) == Next(offered, StockFuture(p.issued));
  }

  ghost predicate OnlyVisits(steps: seq<Step>) {
    forall i :: 0 <= i < |steps| ==> steps[i].VisitFuture?
  }

  lemma {:induction false} VisitsKeepTheRest(p: Pool, steps: seq<Step>)
    requires Legal(p, steps) && OnlyVisits(steps)
    ensures var q := Exec(p, steps); q == p.(processing := q.processing, handled := q.handled, cursor := q.cursor)
    ensures Stocked(steps) == [] && NoBegin(steps)
    decreases |steps|
  {
    if steps != [] {
      assert forall i :: 0 <= i < |steps[1..]| ==> steps[1..][i] == steps[i + 1];
      VisitsKeepTheRest(Next(p, steps[0]), steps[1..]);
    }
  }

  /** Answers a future can give: ready only when its job ran or was dropped. */
  ghost predicate Truthful(p: Pool, ready: Readiness<nat>) {
    forall n, id :: ready(n, id) ==> id in p.finished || id !in p.accepted
  }

  lemma {:induction false} VisitsExist(p: Pool, ready: Readiness<nat>, asked: nat) returns (steps: seq<Step>)
    requires CursorInside(p) && Truthful(p, ready)
    ensures Legal(p, steps) && OnlyVisits(steps) && Follows(p, steps, ready, asked) && Exec(p, steps).cursor.Idle?
    decreases |p.processing|, if p.cursor.Idle? then 0 else |p.processing| - p.cursor.at
  {
    if p.cursor.Idle? {
      steps := [];
    } else {
      var visit := VisitFuture(ready(asked, p.processing[p.cursor.at]));
      var rest := VisitsExist(Next(p, visit), ready, asked + 1);
      steps := [visit] + rest;
      assert steps[1..] == rest;
    }
  }

  /** For any answers that futures can give there is a round with these answers. */
  lemma RoundExists(p: Pool, ready: Readiness<nat>) returns (steps: seq<Step>)
    requires p.cursor.Idle? && Enabled(p, BeginSweep) && Truthful(p, ready)
    ensures IsRound(p, steps) && OnlyVisits(steps) && Follows(Next(p, BeginSweep), steps, ready, 0)
  {
    steps := VisitsExist(Next(p, BeginSweep), ready, 0);
  }

  // ---------------------------------------------------------------- the class

  class ThreadPool {
    const jobQueue: CircularQueue<nat>
    var futureStockList: CircularLinkedList<nat>
    var futureProcessingList: CircularLinkedList<nat>
    var stopAllWorkerThread: bool

    ghost function Repr(): set<object>
      reads this, futureStockList, futureProcessingList
    {
      {this, jobQueue, jobQueue.queueList} + futureStockList.Repr + futureProcessingList.Repr
    }

    ghost predicate Valid()
      reads Repr()
      reads this, futureStockList, futureProcessingList
    {
      && {this, jobQueue, jobQueue.queueList} !! futureStockList.Repr !! futureProcessingList.Repr
      && jobQueue as object != this
      && jobQueue.Valid() && jobQueue.queueList.Length == MAX_QUEUE_LENGTH
      && futureStockList.Valid()
      && futureProcessingList.Valid()
    }

    /** The pool of the step relation that the queue and the lists are those of, between
        two rounds of the processing thread. */
    ghost predicate Shows(p: Pool)
      requires Valid()
      reads Repr()
      reads this, futureStockList, futureProcessingList
    {
      && p.jobs == jobQueue.Items()
      && p.stock == futureStockList.items
      && p.processing == futureProcessingList.items
      && p.cursor.Idle?
    }

    constructor ()
      ensures Valid() && fresh(Repr()) && Shows(INITIAL)
      ensures jobQueue.Items() == [] && jobQueue.queueList.Length == MAX_QUEUE_LENGTH
      ensures futureStockList.items == [] && futureProcessingList.items == [] && !stopAllWorkerThread
    {
      jobQueue := new CircularQueue<nat>(MAX_QUEUE_LENGTH, 0);
      futureStockList := new CircularLinkedList<nat>(0);
      futureProcessingList := new CircularLinkedList<nat>(0);
      stopAllWorkerThread := false;
    }

    /** The first line of the destructor. */
    method Stop()
      requires Valid()
      modifies `stopAllWorkerThread
      ensures Valid() && stopAllWorkerThread
    {
      stopAllWorkerThread := true;
    }

    /** Both critical sections of EnqueueJob. A stopped pool answers false. Otherwise the
        future is stocked, and the call answers true, even when the full queue dropped
        the job. */
    method EnqueueJob(job: nat) returns (enqueued: bool)
      requires Valid()
      modifies Repr()
      ensures Valid() && fresh(Repr() - old(Repr())) && stopAllWorkerThread == old(stopAllWorkerThread)
      ensures enqueued <==> !stopAllWorkerThread
      ensures jobQueue.Items() ==
              if enqueued && |old(jobQueue.Items())| < jobQueue.queueList.Length - 1
              then old(jobQueue.Items()) + [job] else old(jobQueue.Items())
      ensures futureStockList.items == if enqueued then old(futureStockList.items) + [job] else old(futureStockList.items)
      ensures futureProcessingList.items == old(futureProcessingList.items)
      ensures forall p :: old(Shows(p)) && enqueued && p.issued == job ==>
                Legal(p, [OfferJob, StockFuture(job)]) && Shows(Exec(p, [OfferJob, StockFuture(job)]))
    {
      if stopAllWorkerThread {
        return false;
      }
      var _ := jobQueue.Push(job);
      futureStockList.PushBack(job);
      forall p | old(Shows(p)) && p.issued == job
        ensures Legal(p, [OfferJob, StockFuture(job)]) && Shows(Exec(p, [OfferJob, StockFuture(job)]))
      {
        EnqueueIsTwoSteps(p);
      }
      return true;
    }

    /** What a woken worker does before it runs the job; after the stop it takes none. */
    method TakeJob() returns (taken: bool, job: nat)
      requires Valid()
      modifies jobQueue
      ensures Valid()
      ensures taken <==> !stopAllWorkerThread && old(jobQueue.Items()) != []
      ensures old(jobQueue.Items()) == if taken then [job] + jobQueue.Items() else jobQueue.Items()
      ensures forall p :: old(Shows(p)) && taken ==>
                && Enabled(p, StartJob)
                && Shows(Next(p, StartJob)) && Next(p, StartJob).started == p.started + [job]
    {
      if stopAllWorkerThread {
        return false, 0;
      }
      taken, job := jobQueue.Pop(0);
    }

    /** One round of the processing thread: wake only for futures, swap the lists
        when the processing list is used up, then sweep it. */
    method ProcessFutures(ready: Readiness<nat>) returns (handled: seq<nat>)
      requires Valid()
      modifies Repr()
      ensures Valid() && fresh(Repr() - old(Repr())) && stopAllWorkerThread == old(stopAllWorkerThread)
      ensures jobQueue.Items() == old(jobQueue.Items())
      ensures
        var swap := old(futureProcessingList.items) == [];
        var swept := Sweep(if swap then old(futureStockList.items) else old(futureProcessingList.items), 0, ready, 0);
        && handled == swept.handled
        && futureProcessingList.items == swept.rest
        && futureStockList.items == if swap then [] else old(futureStockList.items)
      ensures forall p, steps ::
                old(Shows(p)) && IsRound(p, steps) && OnlyVisits(steps) && Follows(Next(p, BeginSweep), steps, ready, 0)
                ==> Shows(AfterRound(p, steps)) && AfterRound(p, steps).handled == p.handled + handled
    {
      handled := [];
      var stockEmpty := futureStockList.IsEmpty();
      var processingEmpty := futureProcessingList.IsEmpty();
      if !stockEmpty || !processingEmpty {
        if processingEmpty && !stockEmpty {
          futureProcessingList, futureStockList := futureStockList, futureProcessingList;
        }
        handled := SweepFutures(futureProcessingList, ready);
        forall p, steps |
          old(Shows(p)) && IsRound(p, steps) && OnlyVisits(steps) && Follows(Next(p, BeginSweep), steps, ready, 0)
          ensures Shows(AfterRound(p, steps)) && AfterRound(p, steps).handled == p.handled + handled
        {
          RoundSweeps(p, steps, ready);
          VisitsKeepTheRest(Next(p, BeginSweep), steps);
        }
      }
    }
  }
}
