/** The timing wheel: seven slots of timers, each tagged with the rotation in which
    it is due. It is compared with a plain list of (deadline tick, timer), where
    tick number 7 * rotation + index is the time. */
module TimingWheels {
  import opened Sequences


  const MAX_WHEEL_SIZE: nat := 7
  const SIZE_T_VALUES: nat := 0x1_0000_0000_0000_0000

  type SizeT = n: int | 0 <= n < SIZE_T_VALUES

  /** The part of a TimerDelegate that decides when it expires. Expiry calls the bound
      callback, or writes a log line when none is bound. */
  datatype Timer = Timer(id: nat, interval: SizeT)

  datatype Entry = Entry(rotation: nat, timer: Timer)

  datatype Wheel = Wheel(index: nat, rotation: nat, slots: seq<seq<Entry>>)

  ghost predicate WellFormed(w: Wheel) {
    w.index < MAX_WHEEL_SIZE && |w.slots| == MAX_WHEEL_SIZE
  }

  ghost function Now(w: Wheel): nat {
    7 * w.rotation + w.index
  }

  // ---------------------------------------------------------------- the code's steps

  /** The slot index before reduction; the sum is taken in size_t and wraps. */
  function NewIndex(index: nat, interval: SizeT, slotInterval: SizeT): nat
    requires slotInterval >= 1
  {
    (index + interval / slotInterval) % SIZE_T_VALUES
  }

  ghost function AddStep(w: Wheel, t: Timer, slotInterval: SizeT): Wheel
    requires WellFormed(w) && slotInterval >= 1
  {
    var at := NewIndex(w.index, t.interval, slotInterval);
    var rotation := if at >= MAX_WHEEL_SIZE then w.rotation + 1 else w.rotation;
    var slot := at % MAX_WHEEL_SIZE;
    w.(slots := w.slots[slot := w.slots[slot] + [Entry(rotation, t)]])
  }

  /** The timers of a slot that are due in the given rotation, in slot order. */
  ghost function Expired(slot: seq<Entry>, rotation: nat): seq<Timer> {
    if slot == [] then []
    else if slot[0].rotation == rotation then [slot[0].timer] + Expired(slot[1..], rotation)
    else Expired(slot[1..], rotation)
  }

  ghost function Waiting(slot: seq<Entry>, rotation: nat): seq<Entry> {
    if slot == [] then []
    else if slot[0].rotation == rotation then Waiting(slot[1..], rotation)
    else [slot[0]] + Waiting(slot[1..], rotation)
  }

  ghost function TickStep(w: Wheel): Wheel
    requires WellFormed(w)
  {
    var slots := w.slots[w.index := Waiting(w.slots[w.index], w.rotation)];
    if w.index + 1 >= MAX_WHEEL_SIZE then Wheel(0, w.rotation + 1, slots)
    else Wheel(w.index + 1, w.rotation, slots)
  }

  // ---------------------------------------------------------------- the plain list

  datatype Job = Job(deadline: nat, timer: Timer)

  /** Pending timers in insertion order. */
  datatype Plan = Plan(now: nat, pending: seq<Job>)

  /** The deadline that a delay of d slots gets at time `now`: exact while the sum
      stays inside the next rotation; folded into the next rotation beyond that;
      and, when the size_t sum wraps, a tick of the current rotation that is
      already past. */
  ghost function DeadlineFor(now: nat, d: nat): nat {
    var index := now % 7;
    if index + d >= SIZE_T_VALUES then now - index + (index + d - SIZE_T_VALUES) % 7
    else if index + d < 14 then now + d
    else now + (7 - index) + (index + d) % 7
  }

  ghost function PlanAdd(p: Plan, t: Timer, slotInterval: SizeT): Plan
    requires slotInterval >= 1
  {
    p.(pending := p.pending + [Job(DeadlineFor(p.now, t.interval / slotInterval), t)])
  }

  /** The timers due at `now`, in insertion order. */
  ghost function DueAt(pending: seq<Job>, now: nat): seq<Timer> {
    if pending == [] then []
    else if pending[0].deadline == now then [pending[0].timer] + DueAt(pending[1..], now)
    else DueAt(pending[1..], now)
  }

  ghost function NotDueAt(pending: seq<Job>, now: nat): seq<Job> {
    if pending == [] then []
    else if pending[0].deadline == now then NotDueAt(pending[1..], now)
    else [pending[0]] + NotDueAt(pending[1..], now)
  }

  /** Firing goes through the pending jobs in insertion order: those of an earlier part
      fire before those of a later part. */
  lemma {:induction false} FiresInInsertionOrder(earlier: seq<Job>, later: seq<Job>, now: nat)
    ensures DueAt(earlier + later, now) == DueAt(earlier, now) + DueAt(later, now)
    ensures NotDueAt(earlier + later, now) == NotDueAt(earlier, now) + NotDueAt(later, now)
  {
    if earlier == [] {
      assert earlier + later == later;
    } else {
      assert (earlier + later)[1..] == earlier[1..] + later;
      FiresInInsertionOrder(earlier[1..], later, now);
    }
  }

  /** A single job fires exactly when its deadline is now, and otherwise stays. */
  lemma FiresWhenDue(j: Job, now: nat)
    ensures DueAt([j], now) == if j.deadline == now then [j.timer] else []
    ensures NotDueAt([j], now) == if j.deadline == now then [] else [j]
  {
  }

  ghost function PlanTick(p: Plan): Plan {
    Plan(p.now + 1, NotDueAt(p.pending, p.now))
  }

  // ---------------------------------------------------------------- refinement

  /** What slot number s holds when the pending list is as given. */
  ghost function SlotView(pending: seq<Job>, s: nat): seq<Entry> {
    if pending == [] then []
    else if pending[0].deadline % 7 == s
    then [Entry(pending[0].deadline / 7, pending[0].timer)] + SlotView(pending[1..], s)
    else SlotView(pending[1..], s)
  }

  ghost predicate Refines(w: Wheel, p: Plan) {
    && WellFormed(w)
    && p.now == Now(w)
    && forall s :: 0 <= s < 7 ==> w.slots[s] == SlotView(p.pending, s)
  }

  lemma {:induction false} SlotViewAppend(pending: seq<Job>, j: Job, s: nat)
    ensures SlotView(pending + [j], s)
            == if j.deadline % 7 == s then SlotView(pending, s) + [Entry(j.deadline / 7, j.timer)]
               else SlotView(pending, s)
  {
    if pending == [] {
      assert [j][1..] == [];
    } else {
      SlotViewAppend(pending[1..], j, s);
      assert (pending + [j])[1..] == pending[1..] + [j];
    }
  }

  lemma TickIs(rotation: nat, slot: nat)
    requires slot < 7
    ensures (7 * rotation + slot) / 7 == rotation && (7 * rotation + slot) % 7 == slot
  {
  }

  lemma DeadlineOfSum(rotation: nat, index: nat, d: nat)
    requires index < 7 && d < SIZE_T_VALUES
    ensures var at := (index + d) % SIZE_T_VALUES;
            DeadlineFor(7 * rotation + index, d) == 7 * (if at >= 7 then rotation + 1 else rotation) + at % 7
  {
    TickIs(rotation, index);
    if index + d >= SIZE_T_VALUES {
      assert (index + d) % SIZE_T_VALUES == index + d - SIZE_T_VALUES;
    } else {
      assert (index + d) % SIZE_T_VALUES == index + d;
    }
  }

  /** The deadline formula is what slot number and rotation tag encode. */
  lemma DeadlineIsSlotAndRotation(w: Wheel, interval: SizeT, slotInterval: SizeT)
    requires WellFormed(w) && slotInterval >= 1
    ensures var at := NewIndex(w.index, interval, slotInterval);
            DeadlineFor(Now(w), interval / slotInterval)
            == 7 * (if at >= 7 then w.rotation + 1 else w.rotation) + at % 7
  {
    QuotientAtMost(interval, slotInterval);
    DeadlineOfSum(w.rotation, w.index, interval / slotInterval);
  }

  lemma QuotientAtMost(x: nat, y: nat)
    requires y >= 1
    ensures 0 <= x / y <= x
  {
  }

  lemma AppendRefines(w: Wheel, p: Plan, t: Timer, rotation: nat, slot: nat)
    requires Refines(w, p) && slot < 7
    ensures Refines(w.(slots := w.slots[slot := w.slots[slot] + [Entry(rotation, t)]]),
                    p.(pending := p.pending + [Job(7 * rotation + slot, t)]))
  {
    TickIs(rotation, slot);
    var slots := w.slots[slot := w.slots[slot] + [Entry(rotation, t)]];
    forall s | 0 <= s < 7
      ensures slots[s] == SlotView(p.pending + [Job(7 * rotation + slot, t)], s)
    {
      SlotViewAppend(p.pending, Job(7 * rotation + slot, t), s);
    }
  }

  lemma AddRefines(w: Wheel, p: Plan, t: Timer, slotInterval: SizeT)
    requires Refines(w, p) && slotInterval >= 1
    ensures Refines(AddStep(w, t, slotInterval), PlanAdd(p, t, slotInterval))
  {
    var at := NewIndex(w.index, t.interval, slotInterval);
    DeadlineIsSlotAndRotation(w, t.interval, slotInterval);
    AppendRefines(w, p, t, if at >= 7 then w.rotation + 1 else w.rotation, at % 7);
  }

  /** Sweeping one slot by rotation is dropping the due jobs of the plain list, and
      leaves the other slots alone. */
  lemma {:induction false} SweepIsDrop(pending: seq<Job>, rotation: nat, index: nat, s: nat)
    requires index < 7 && s < 7
    ensures var kept := SlotView(NotDueAt(pending, 7 * rotation + index), s);
            if s == index then kept == Waiting(SlotView(pending, s), rotation)
            else kept == SlotView(pending, s)
  {
    if pending != [] {
      var rest := pending[1..];
      SweepIsDrop(rest, rotation, index, s);
      DueIsSlotAndRotation(pending[0].deadline, rotation, index);
      var e := Entry(pending[0].deadline / 7, pending[0].timer);
      assert ([e] + SlotView(rest, s))[1..] == SlotView(rest, s);
      var kept := NotDueAt(rest, 7 * rotation + index);
      assert ([pending[0]] + kept)[1..] == kept;
    }
  }

  lemma {:induction false} ExpiredIsDue(pending: seq<Job>, rotation: nat, index: nat)
    requires index < 7
    ensures DueAt(pending, 7 * rotation + index) == Expired(SlotView(pending, index), rotation)
  {
    if pending != [] {
      var rest := pending[1..];
      ExpiredIsDue(rest, rotation, index);
      DueIsSlotAndRotation(pending[0].deadline, rotation, index);
      var e := Entry(pending[0].deadline / 7, pending[0].timer);
      assert ([e] + SlotView(rest, index))[1..] == SlotView(rest, index);
    }
  }

  lemma DueIsSlotAndRotation(deadline: nat, rotation: nat, index: nat)
    requires index < 7
    ensures deadline == 7 * rotation + index <==> deadline % 7 == index && deadline / 7 == rotation
  {
  }

  lemma TickRefines(w: Wheel, p: Plan)
    requires Refines(w, p)
    ensures Refines(TickStep(w), PlanTick(p))
    ensures Expired(w.slots[w.index], w.rotation) == DueAt(p.pending, p.now)
  {
    forall s | 0 <= s < 7
      ensures TickStep(w).slots[s] == SlotView(PlanTick(p).pending, s)
    {
      SweepIsDrop(p.pending, w.rotation, w.index, s);
    }
    ExpiredIsDue(p.pending, w.rotation, w.index);
  }

  // ---------------------------------------------------------------- runs

  datatype Event = Add(timer: Timer) | Tick

  /** What happened at which tick. */
  datatype Firing = Firing(tick: nat, timer: Timer)

  ghost function At(tick: nat, timers: seq<Timer>): seq<Firing> {
    if timers == [] then [] else [Firing(tick, timers[0])] + At(tick, timers[1..])
  }

  ghost function WheelRun(slotInterval: SizeT, events: seq<Event>): (r: (Wheel, seq<Firing>))
    requires slotInterval >= 1
    ensures WellFormed(r.0)
  {
    if events == [] then (Wheel(0, 0, seq(7, _ => [])), [])
    else
      var (w, log) := WheelRun(slotInterval, events[..|events| - 1]);
      match events[|events| - 1]
      case Add(t) => (AddStep(w, t, slotInterval), log)
      case Tick => (TickStep(w), log + At(Now(w), Expired(w.slots[w.index], w.rotation)))
  }

  ghost function PlanRun(slotInterval: SizeT, events: seq<Event>): (Plan, seq<Firing>)
    requires slotInterval >= 1
  {
    if events == [] then (Plan(0, []), [])
    else
      var (p, log) := PlanRun(slotInterval, events[..|events| - 1]);
      match events[|events| - 1]
      case Add(t) => (PlanAdd(p, t, slotInterval), log)
      case Tick => (PlanTick(p), log + At(p.now, DueAt(p.pending, p.now)))
  }

  /** Over any sequence of adds and ticks the wheel fires exactly what the plain
      list fires: the same timers at the same ticks in the same order. */
  lemma {:induction false} WheelRefinesPlan(slotInterval: SizeT, events: seq<Event>)
    requires slotInterval >= 1
    ensures Refines(WheelRun(slotInterval, events).0, PlanRun(slotInterval, events).0)
    ensures WheelRun(slotInterval, events).1 == PlanRun(slotInterval, events).1
  {
    if events != [] {
      var init := events[..|events| - 1];
      WheelRefinesPlan(slotInterval, init);
      var w, p := WheelRun(slotInterval, init).0, PlanRun(slotInterval, init).0;
      match events[|events| - 1]
      case Add(t) => AddRefines(w, p, t, slotInterval);
      case Tick => TickRefines(w, p);
    }
  }

  // ---------------------------------------------------------------- what the plain list promises

  /** A firing of a job at its own deadline. */
  ghost function OnTime(j: Job): Firing {
    Firing(j.deadline, j.timer)
  }

  ghost function AsFirings(jobs: seq<Job>): seq<Firing> {
    if jobs == [] then [] else [OnTime(jobs[0])] + AsFirings(jobs[1..])
  }

  /** The firings that the adds of a run ask for: each timer at its deadline. */
  ghost function Asked(slotInterval: SizeT, events: seq<Event>): seq<Firing>
    requires slotInterval >= 1
  {
    if events == [] then []
    else
      var init := events[..|events| - 1];
      match events[|events| - 1]
      case Add(t) =>
        Asked(slotInterval, init)
        + [Firing(DeadlineFor(PlanRun(slotInterval, init).0.now, t.interval / slotInterval), t)]
      case Tick => Asked(slotInterval, init)
  }

  lemma {:induction false} AsFiringsAppend(jobs: seq<Job>, j: Job)
    ensures AsFirings(jobs + [j]) == AsFirings(jobs) + [OnTime(j)]
  {
    if jobs == [] {
      assert [j][1..] == [];
    } else {
      AsFiringsAppend(jobs[1..], j);
      assert (jobs + [j])[1..] == jobs[1..] + [j];
    }
  }

  lemma {:induction false} TickConserves(pending: seq<Job>, now: nat)
    ensures multiset(AsFirings(pending))
            == multiset(At(now, DueAt(pending, now))) + multiset(AsFirings(NotDueAt(pending, now)))
  {
    if pending != [] {
      var j, rest := pending[0], pending[1..];
      var due, later := DueAt(rest, now), NotDueAt(rest, now);
      TickConserves(rest, now);
      assert multiset(AsFirings(pending)) == multiset{OnTime(j)} + multiset(AsFirings(rest));
      if j.deadline == now {
        assert ([j.timer] + due)[1..] == due;
        assert At(now, [j.timer] + due) == [OnTime(j)] + At(now, due);
      } else {
        assert ([j] + later)[1..] == later;
        assert AsFirings([j] + later) == [OnTime(j)] + AsFirings(later);
      }
    }
  }

  /** In every run of the wheel, the firings logged so far together with the pending
      jobs are exactly the firings asked for: nothing is lost, invented, repeated or
      fired at another tick than its deadline. */
  lemma FiringsAreConserved(slotInterval: SizeT, events: seq<Event>)
    requires slotInterval >= 1
    ensures multiset(WheelRun(slotInterval, events).1)
            + multiset(AsFirings(PlanRun(slotInterval, events).0.pending))
            == multiset(Asked(slotInterval, events))
  {
    WheelRefinesPlan(slotInterval, events);
    var (p, log) := PlanRun(slotInterval, events);
    forall f
      ensures multiset(log)[f] + multiset(AsFirings(p.pending))[f] == multiset(Asked(slotInterval, events))[f]
    {
      PlanConserves(slotInterval, events, f);
    }
    assert multiset(log) + multiset(AsFirings(p.pending)) == multiset(Asked(slotInterval, events));
  }

  /** How often a job with this deadline and timer is pending. */
  ghost function Pendings(pending: seq<Job>, f: Firing): nat {
    multiset(AsFirings(pending))[f]
  }

  lemma AddPendings(pending: seq<Job>, j: Job, f: Firing)
    ensures Pendings(pending + [j], f) == Pendings(pending, f) + if f == OnTime(j) then 1 else 0
  {
    AsFiringsAppend(pending, j);
  }

  lemma CountsAdd<T>(s: seq<T>, t: seq<T>, x: T)
    ensures multiset(s + t)[x] == multiset(s)[x] + multiset(t)[x]
  {
  }

  lemma {:induction false} PlanConserves(slotInterval: SizeT, events: seq<Event>, f: Firing)
    requires slotInterval >= 1
    ensures var (p, log) := PlanRun(slotInterval, events);
            multiset(log)[f] + Pendings(p.pending, f) == multiset(Asked(slotInterval, events))[f]
  {
    if events != [] {
      var init := events[..|events| - 1];
      PlanConserves(slotInterval, init, f);
      var (p, log) := PlanRun(slotInterval, init);
      match events[|events| - 1]
      case Add(t) =>
        var j := Job(DeadlineFor(p.now, t.interval / slotInterval), t);
        AddPendings(p.pending, j, f);
        CountsAdd(Asked(slotInterval, init), [OnTime(j)], f);
      case Tick =>
        TickConserves(p.pending, p.now);
        CountsAdd(log, At(p.now, DueAt(p.pending, p.now)), f);
    }
  }

  // ---------------------------------------------------------------- order of firing

  lemma {:induction false} AtAppend(tick: nat, timers: seq<Timer>, t: Timer)
    ensures At(tick, timers + [t]) == At(tick, timers) + [Firing(tick, t)]
  {
    if timers == [] {
      assert [t][1..] == [];
    } else {
      AtAppend(tick, timers[1..], t);
      assert (timers + [t])[1..] == timers[1..] + [t];
    }
  }

  /** What a tick fires and what it keeps stand in the order of the pending jobs. */
  lemma {:induction false} TickKeepsOrder(pending: seq<Job>, now: nat)
    ensures IsSubsequence(At(now, DueAt(pending, now)), AsFirings(pending))
    ensures IsSubsequence(AsFirings(NotDueAt(pending, now)), AsFirings(pending))
  {
    if pending != [] {
      var (init, j) := (pending[..|pending| - 1], pending[|pending| - 1]);
      TickKeepsOrder(init, now);
      assert pending == init + [j];
      FiresInInsertionOrder(init, [j], now);
      FiresWhenDue(j, now);
      AsFiringsAppend(init, j);
      SubsequenceLonger(At(now, DueAt(init, now)), AsFirings(init), OnTime(j));
      SubsequenceLonger(AsFirings(NotDueAt(init, now)), AsFirings(init), OnTime(j));
      if j.deadline == now {
        AtAppend(now, DueAt(init, now), j.timer);
        assert NotDueAt(pending, now) == NotDueAt(init, now);
      } else {
        AsFiringsAppend(NotDueAt(init, now), j);
        assert DueAt(pending, now) == DueAt(init, now);
      }
    }
  }

  /** In every run the pending timers stand in the order in which they were added. */
  lemma {:induction false} PendingInAddOrder(slotInterval: SizeT, events: seq<Event>)
    requires slotInterval >= 1
    ensures IsSubsequence(AsFirings(PlanRun(slotInterval, events).0.pending), Asked(slotInterval, events))
  {
    if events != [] {
      var init := events[..|events| - 1];
      var p := PlanRun(slotInterval, init).0;
      PendingInAddOrder(slotInterval, init);
      match events[|events| - 1]
      case Add(t) =>
        var j := Job(DeadlineFor(p.now, t.interval / slotInterval), t);
        AsFiringsAppend(p.pending, j);
        SubsequenceLonger(AsFirings(p.pending), Asked(slotInterval, init), OnTime(j));
      case Tick =>
        TickKeepsOrder(p.pending, p.now);
        SubsequenceTransitive(AsFirings(NotDueAt(p.pending, p.now)), AsFirings(p.pending), Asked(slotInterval, init));
    }
  }

  /** So the timers that the wheel fires at one tick fire in the order in which they
      were added. */
  lemma FiresInAddOrder(slotInterval: SizeT, events: seq<Event>)
    requires slotInterval >= 1
    ensures var w := WheelRun(slotInterval, events).0;
            IsSubsequence(At(Now(w), Expired(w.slots[w.index], w.rotation)), Asked(slotInterval, events))
  {
    var (w, p) := (WheelRun(slotInterval, events).0, PlanRun(slotInterval, events).0);
    WheelRefinesPlan(slotInterval, events);
    TickRefines(w, p);
    PendingInAddOrder(slotInterval, events);
    TickKeepsOrder(p.pending, p.now);
    SubsequenceTransitive(At(p.now, DueAt(p.pending, p.now)), AsFirings(p.pending), Asked(slotInterval, events));
  }

  // ---------------------------------------------------------------- deadlines

  /** The timer's delay in slots fits the size_t sum of AddNewTimer. */
  ghost predicate Fits(index: nat, t: Timer, slotInterval: SizeT)
    requires slotInterval >= 1
  {
    index + t.interval / slotInterval < SIZE_T_VALUES
  }

  /** A delay of d slots is kept exactly when index + d < 14. Otherwise, short of the
      size_t wrap, the timer is early: its delay is shorter than d but congruent to
      it modulo 7. */
  lemma DelayIsExactIff(now: nat, d: nat)
    requires now % 7 + d < SIZE_T_VALUES
    ensures var got := DeadlineFor(now, d) - now;
            && 0 <= got < 14
            && (got == d <==> now % 7 + d < 14)
            && (now % 7 + d >= 14 ==>
                  got == 7 - now % 7 + (now % 7 + d) % 7 && got % 7 == d % 7 && got < d)
  {
  }

  /** Once the sum wraps, the timer is filed under a tick that has passed. */
  lemma DeadlineIsPastIff(now: nat, d: nat)
    requires d < SIZE_T_VALUES
    ensures DeadlineFor(now, d) < now <==> now % 7 + d >= SIZE_T_VALUES
  {
  }

  lemma {:induction false} NotDueKeeps(pending: seq<Job>, now: nat, j: Job)
    requires j in pending && j.deadline != now
    ensures j in NotDueAt(pending, now)
  {
    if pending[0] != j {
      NotDueKeeps(pending[1..], now, j);
    }
  }

  /** And such a timer stays pending, whatever is added and however long it ticks. */
  lemma {:induction false} OverdueNeverFires(slotInterval: SizeT, events: seq<Event>, more: seq<Event>, j: Job)
    requires slotInterval >= 1
    requires var p := PlanRun(slotInterval, events).0; j in p.pending && j.deadline < p.now
    ensures var p := PlanRun(slotInterval, events + more).0; j in p.pending && j.deadline < p.now
    decreases |more|
  {
    if more == [] {
      assert events + more == events;
    } else {
      var init := events + more[..|more| - 1];
      OverdueNeverFires(slotInterval, events, more[..|more| - 1], j);
      assert (events + more)[..|events + more| - 1] == init;
      var p := PlanRun(slotInterval, init).0;
      if more[|more| - 1].Tick? {
        NotDueKeeps(p.pending, p.now, j);
      }
    }
  }

  /** The firings asked for by adds whose size_t sum wraps: each names a tick that had
      passed when it was asked for. */
  ghost function AskedLate(slotInterval: SizeT, events: seq<Event>): multiset<Firing>
    requires slotInterval >= 1
  {
    if events == [] then multiset{}
    else
      var init := events[..|events| - 1];
      var late := AskedLate(slotInterval, init);
      var now := PlanRun(slotInterval, init).0.now;
      match events[|events| - 1]
      case Add(t) =>
        if Fits(now % 7, t, slotInterval) then late
        else late + multiset{Firing(DeadlineFor(now, t.interval / slotInterval), t)}
      case Tick => late
  }

  lemma {:induction false} FiredNow(timers: seq<Timer>, now: nat, f: Firing)
    requires f.tick != now
    ensures multiset(At(now, timers))[f] == 0
  {
    if timers != [] {
      FiredNow(timers[1..], now, f);
    }
  }

  lemma {:induction false} NothingDueIsKept(pending: seq<Job>, now: nat, f: Firing)
    requires f.tick == now
    ensures multiset(AsFirings(NotDueAt(pending, now)))[f] == 0
  {
    if pending != [] {
      var later := NotDueAt(pending[1..], now);
      NothingDueIsKept(pending[1..], now, f);
      assert ([pending[0]] + later)[1..] == later;
    }
  }

  /** A tick takes away the jobs due now and no other. */
  lemma TickPendings(pending: seq<Job>, now: nat, f: Firing)
    ensures Pendings(NotDueAt(pending, now), f) == if f.tick == now then 0 else Pendings(pending, f)
  {
    if f.tick == now {
      NothingDueIsKept(pending, now, f);
    } else {
      TickConserves(pending, now);
      FiredNow(DueAt(pending, now), now, f);
    }
  }

  /** The jobs pending behind the current tick are exactly those that were late when
      they were added. */
  lemma {:induction false} LateIsPending(slotInterval: SizeT, events: seq<Event>, f: Firing)
    requires slotInterval >= 1
    ensures var p := PlanRun(slotInterval, events).0;
            AskedLate(slotInterval, events)[f] == if f.tick < p.now then Pendings(p.pending, f) else 0
  {
    if events != [] {
      var init := events[..|events| - 1];
      var p := PlanRun(slotInterval, init).0;
      LateIsPending(slotInterval, init, f);
      match events[|events| - 1]
      case Add(t) =>
        var d := t.interval / slotInterval;
        QuotientAtMost(t.interval, slotInterval);
        DeadlineIsPastIff(p.now, d);
        AddPendings(p.pending, Job(DeadlineFor(p.now, d), t), f);
      case Tick => TickPendings(p.pending, p.now, f);
    }
  }

  lemma {:induction false} NotDueIsPending(pending: seq<Job>, now: nat, j: Job)
    requires j in NotDueAt(pending, now)
    ensures j in pending
  {
    if j !in NotDueAt(pending[1..], now) {
      assert j == pending[0];
    } else {
      NotDueIsPending(pending[1..], now, j);
    }
  }

  lemma DeadlineIsNear(now: nat, d: nat)
    ensures DeadlineFor(now, d) < now + 14
  {
  }

  /** Less than 14 ticks ahead. */
  ghost predicate AllNear(p: Plan) {
    forall j :: j in p.pending ==> j.deadline < p.now + 14
  }

  lemma AddStaysNear(p: Plan, t: Timer, slotInterval: SizeT)
    requires slotInterval >= 1 && AllNear(p)
    ensures AllNear(PlanAdd(p, t, slotInterval))
  {
    DeadlineIsNear(p.now, t.interval / slotInterval);
  }

  lemma TickStaysNear(p: Plan)
    requires AllNear(p)
    ensures AllNear(PlanTick(p))
  {
    forall j | j in NotDueAt(p.pending, p.now)
      ensures j.deadline < p.now + 14
    {
      NotDueIsPending(p.pending, p.now, j);
    }
  }

  lemma {:induction false} PendingIsNear(slotInterval: SizeT, events: seq<Event>)
    requires slotInterval >= 1
    ensures AllNear(PlanRun(slotInterval, events).0)
  {
    if events != [] {
      var init := events[..|events| - 1];
      var p := PlanRun(slotInterval, init).0;
      PendingIsNear(slotInterval, init);
      match events[|events| - 1]
      case Add(t) => AddStaysNear(p, t, slotInterval);
      case Tick => TickStaysNear(p);
    }
  }

  lemma {:induction false} PendingCounts(pending: seq<Job>, j: Job)
    requires j in pending
    ensures Pendings(pending, OnTime(j)) > 0
  {
    if pending[0] != j {
      PendingCounts(pending[1..], j);
    }
  }

  /** In every run, a pending timer is less than 14 ticks ahead of the current tick,
      and not behind it unless it was late when it was added. */
  lemma PendingStaysInWindow(slotInterval: SizeT, events: seq<Event>, j: Job)
    requires slotInterval >= 1 && j in PlanRun(slotInterval, events).0.pending
    ensures var now := PlanRun(slotInterval, events).0.now;
            j.deadline < now + 14 && (now <= j.deadline || OnTime(j) in AskedLate(slotInterval, events))
  {
    PendingIsNear(slotInterval, events);
    LateIsPending(slotInterval, events, OnTime(j));
    PendingCounts(PlanRun(slotInterval, events).0.pending, j);
  }

  /** So in every run, a timer whose deadline has passed has fired at its deadline as
      often as it was added, less the times it was late when added. */
  lemma PastDeadlinesHaveFired(slotInterval: SizeT, events: seq<Event>, f: Firing)
    requires slotInterval >= 1
    requires f.tick < Now(WheelRun(slotInterval, events).0)
    ensures multiset(WheelRun(slotInterval, events).1)[f] + AskedLate(slotInterval, events)[f]
            == multiset(Asked(slotInterval, events))[f]
  {
    WheelRefinesPlan(slotInterval, events);
    FiringsAreConserved(slotInterval, events);
    LateIsPending(slotInterval, events, f);
  }

  // ---------------------------------------------------------------- the class

  /** One visit of the walk over a slot, standing on position `it`. */
  lemma VisitOne(slot: seq<Entry>, it: nat, rotation: nat)
    requires it < |slot|
    ensures slot[it].rotation == rotation ==>
              var rest := slot[..it] + slot[it + 1..];
              && Expired(slot[it..], rotation) == [slot[it].timer] + Expired(rest[it..], rotation)
              && slot[..it] + Waiting(slot[it..], rotation) == rest[..it] + Waiting(rest[it..], rotation)
    ensures slot[it].rotation != rotation ==>
              && Expired(slot[it..], rotation) == Expired(slot[it + 1..], rotation)
              && slot[..it] + Waiting(slot[it..], rotation)
                 == slot[..it + 1] + Waiting(slot[it + 1..], rotation)
  {
  }

  class TimerClass {
    const slotInterval: SizeT
    var currentIndex: nat
    var currentRotationCount: nat
    var timingWheel: seq<seq<Entry>>

    ghost function State(): Wheel
      reads this
    {
      Wheel(currentIndex, currentRotationCount, timingWheel)
    }

    ghost predicate Valid()
      reads this
    {
      slotInterval >= 1 && WellFormed(State())
    }

    constructor (slotInterval: SizeT)
      requires slotInterval >= 1
      ensures Valid() && this.slotInterval == slotInterval
      ensures Refines(State(), Plan(0, []))
    {
      this.slotInterval := slotInterval;
      currentIndex, currentRotationCount := 0, 0;
      timingWheel := seq(MAX_WHEEL_SIZE, _ => []);
    }

    method AddNewTimer(t: Timer)
      requires Valid()
      modifies this
      ensures Valid()
      ensures State() == AddStep(old(State()), t, slotInterval)
    {
      var newIndex := NewIndex(currentIndex, t.interval, slotInterval);
      var rotation := if newIndex >= MAX_WHEEL_SIZE then currentRotationCount + 1 else currentRotationCount;
      var slot := newIndex % MAX_WHEEL_SIZE;
      timingWheel := timingWheel[slot := timingWheel[slot] + [Entry(rotation, t)]];
    }

    /** One tick: walk the current slot, calling and erasing the entries of this
        rotation, then advance. `expired` lists the erased timers in order. */
    method Tick() returns (expired: seq<Timer>)
      requires Valid()
      modifies this
      ensures Valid()
      ensures State() == TickStep(old(State()))
      ensures expired == Expired(old(timingWheel)[old(currentIndex)], old(currentRotationCount))
    {
      expired := [];
      var it := 0;
      ghost var slot := timingWheel[currentIndex];
      ghost var left := slot;
      while it < |timingWheel[currentIndex]|
        invariant currentIndex == old(currentIndex) && currentRotationCount == old(currentRotationCount)
        invariant 0 <= it <= |left|
        invariant timingWheel == old(timingWheel)[currentIndex := left]
        invariant Expired(slot, currentRotationCount) == expired + Expired(left[it..], currentRotationCount)
        invariant Waiting(slot, currentRotationCount) == left[..it] + Waiting(left[it..], currentRotationCount)
        decreases |left| - it
      {
        var here := timingWheel[currentIndex];
        VisitOne(here, it, currentRotationCount);
        if currentRotationCount == here[it].rotation {
          expired := expired + [here[it].timer];
          timingWheel := timingWheel[currentIndex := here[..it] + here[it + 1..]];
          left := here[..it] + here[it + 1..];
        } else {
          it := it + 1;
        }
      }
      assert left[it..] == [] && left[..it] + [] == left;
      if currentIndex + 1 >= MAX_WHEEL_SIZE {
        currentIndex := 0;
        currentRotationCount := currentRotationCount + 1;
      } else {
        currentIndex := currentIndex + 1;
      }
    }
  }
}
