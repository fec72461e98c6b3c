/** The two database connection pools. A lease carries the list index that was
    current when it was made, and gives its slot back through that index. */
module ConnectionPools {
  import opened Sequences

  /** A connection object, named by a number that no other connection object has. */
  type Connection = nat

  datatype Slot = Slot(able: bool, connection: Connection)

  datatype Lease = Lease(index: nat, connection: Connection)

  datatype Pool = Pool(slots: seq<Slot>, count: nat, max: nat)

  /** How opening a connection ends. */
  datatype Connect = Connected(connection: Connection) | Refused

  /** How GetConnection ends; `Threw` is the exception of a refused connection in the
      MSSQL pool, which leaves the function. */
  datatype Answer = Leased(lease: Lease) | Empty | Threw

  // ---------------------------------------------------------------- the code's steps

  /** The first able slot, or the length when there is none. */
  ghost function FirstAble(slots: seq<Slot>, from: nat): (i: nat)
    requires from <= |slots|
    ensures from <= i <= |slots|
    ensures forall k :: from <= k < i ==> !slots[k].able
    ensures i < |slots| ==> slots[i].able
    decreases |slots| - from
  {
    if from == |slots| || slots[from].able then from else FirstAble(slots, from + 1)
  }

  ghost function Occupied(p: Pool, i: nat): Pool
    requires i < |p.slots|
  {
    p.(slots := p.slots[i := p.slots[i].(able := false)])
  }

  ghost function Extended(p: Pool, connection: Connection): Pool {
    p.(slots := p.slots + [Slot(false, connection)], count := p.count + 1)
  }

  /** GetConnection of the MSSQL pool. */
  ghost function MssqlGet(p: Pool, connect: Connect): (Pool, Answer) {
    var i := FirstAble(p.slots, 0);
    if i < |p.slots| then (Occupied(p, i), Leased(Lease(i, p.slots[i].connection)))
    else if p.count < p.max then
      match connect
      case Connected(c) => (Extended(p, c), Leased(Lease(p.count, c)))
      case Refused => (p, Threw)
    else (p, Empty)
  }

  /** GetConnection of the MySQL pool: a failed schema selection answers null and
      leaves the slot unable; a refused connection answers null. */
  ghost function MysqlGet(p: Pool, schemaOk: bool, connect: Connect): (Pool, Answer) {
    var i := FirstAble(p.slots, 0);
    if i < |p.slots| then
      (Occupied(p, i), if schemaOk then Leased(Lease(i, p.slots[i].connection)) else Empty)
    else if p.count < p.max && connect.Connected? then
      (Extended(p, connect.connection), Leased(Lease(p.count, connect.connection)))
    else (p, Empty)
  }

  /** The deleter of a lease. */
  ghost function Release(p: Pool, lease: Lease): Pool
    requires lease.index < |p.slots|
  {
    p.(slots := p.slots[lease.index := p.slots[lease.index].(able := true)])
  }

  // ---------------------------------------------------------------- the answers

  ghost predicate NoneAble(p: Pool) {
    forall i :: 0 <= i < |p.slots| ==> !p.slots[i].able
  }

  ghost predicate LowestAble(p: Pool, i: nat) {
    i < |p.slots| && p.slots[i].able && forall k :: 0 <= k < i ==> !p.slots[k].able
  }

  /** The pool changes in nothing but that slot i is now taken. */
  ghost predicate OnlyTaken(p: Pool, q: Pool, i: nat) {
    && q.count == p.count && q.max == p.max && |q.slots| == |p.slots| && i < |p.slots|
    && !q.slots[i].able && q.slots[i].connection == p.slots[i].connection
    && forall k :: 0 <= k < |p.slots| && k != i ==> q.slots[k] == p.slots[k]
  }

  /** Every answer of the MySQL pool. With a slot able, the lowest one is taken, and
      leased unless selecting the schema fails. With none able, a connection is opened
      below the maximum, whatever its schema; no schema is selected on it. */
  lemma MysqlAnswers(p: Pool, schemaOk: bool, connect: Connect)
    ensures var (q, answer) := MysqlGet(p, schemaOk, connect);
            && !answer.Threw?
            && (answer.Empty? <==>
                  || (!NoneAble(p) && !schemaOk)
                  || (NoneAble(p) && (p.count >= p.max || connect.Refused?)))
            && (!NoneAble(p) ==>
                  exists i: nat :: (
                    && LowestAble(p, i) && OnlyTaken(p, q, i)
                    && (schemaOk ==> answer == Leased(LeaseAt(p, i)))))
            && (NoneAble(p) && answer.Empty? ==> q == p)
            && (NoneAble(p) && answer.Leased? ==>
                  && connect.Connected? && answer.lease == Lease(p.count, connect.connection)
                  && q.slots == p.slots + [Slot(false, connect.connection)]
                  && q.count == p.count + 1 && q.max == p.max)
  {
    AnAbleSlotIsTaken(p);
  }

  /** Every answer of the MSSQL pool, which selects no schema and lets the exception of
      a refused connection through. */
  lemma MssqlAnswers(p: Pool, connect: Connect)
    ensures var (q, answer) := MssqlGet(p, connect);
            && (answer.Empty? <==> NoneAble(p) && p.count >= p.max)
            && (answer.Threw? <==> NoneAble(p) && p.count < p.max && connect.Refused?)
            && (!NoneAble(p) ==>
                  exists i: nat :: LowestAble(p, i) && OnlyTaken(p, q, i) && answer == Leased(LeaseAt(p, i)))
            && (NoneAble(p) && !answer.Leased? ==> q == p)
            && (NoneAble(p) && answer.Leased? ==>
                  && connect.Connected? && answer.lease == Lease(p.count, connect.connection)
                  && q.slots == p.slots + [Slot(false, connect.connection)]
                  && q.count == p.count + 1 && q.max == p.max)
  {
    AnAbleSlotIsTaken(p);
  }

  lemma AnAbleSlotIsTaken(p: Pool)
    ensures var i := FirstAble(p.slots, 0);
            if NoneAble(p) then i == |p.slots|
            else LowestAble(p, i) && OnlyTaken(p, Occupied(p, i), i)
  {
  }

  // ---------------------------------------------------------------- runs

  /** A pool with the leases its clients hold, the slots that were lost, and how many
      schema selections have failed. */
  datatype World = World(pool: Pool, leases: multiset<Lease>, lost: set<nat>, failures: nat)

  datatype Event =
    | Get(schemaOk: bool, connect: Connect)
    | GiveBack(lease: Lease)

  ghost predicate IsNew(p: Pool, connect: Connect) {
    connect.Connected? ==> forall i :: 0 <= i < |p.slots| ==> p.slots[i].connection != connect.connection
  }

  ghost predicate Enabled(w: World, e: Event) {
    match e
    case Get(_, connect) => IsNew(w.pool, connect)
    case GiveBack(lease) => lease in w.leases && lease.index < |w.pool.slots|
  }

  ghost function Next(w: World, e: Event): World
    requires Enabled(w, e)
  {
    match e
    case Get(schemaOk, connect) =>
      var (pool, answer) := MysqlGet(w.pool, schemaOk, connect);
      var i := FirstAble(w.pool.slots, 0);
      var wasted := i < |w.pool.slots| && !schemaOk;
      World(pool,
            if answer.Leased? then w.leases + multiset{answer.lease} else w.leases,
            if wasted then w.lost + {i} else w.lost,
            if wasted then w.failures + 1 else w.failures)
    case GiveBack(lease) => w.(pool := Release(w.pool, lease), leases := w.leases - multiset{lease})
  }

  /** The lease stands in the list where its index says. */
  ghost predicate Filed(p: Pool, lease: Lease) {
    lease.index < |p.slots| && p.slots[lease.index].connection == lease.connection
  }

  ghost function LeaseAt(p: Pool, i: nat): Lease
    requires i < |p.slots|
  {
    Lease(i, p.slots[i].connection)
  }

  /** The list is as long as the counter, all leases are filed, and a slot is unable
      exactly when it is leased, once, or lost. */
  ghost predicate Inv(w: World) {
    && |w.pool.slots| == w.pool.count <= w.pool.max
    && (forall i, j :: 0 <= i < j < |w.pool.slots| ==> w.pool.slots[i].connection != w.pool.slots[j].connection)
    && (forall lease :: lease in w.leases ==> Filed(w.pool, lease))
    && (forall i :: 0 <= i < |w.pool.slots| ==>
          w.leases[LeaseAt(w.pool, i)] == if w.pool.slots[i].able || i in w.lost then 0 else 1)
    && (forall i :: i in w.lost ==> i < |w.pool.slots| && !w.pool.slots[i].able)
    && |w.lost| == w.failures
  }

  lemma LeaseKeepsInv(w: World, i: nat)
    requires Inv(w) && i < |w.pool.slots| && w.pool.slots[i].able
    ensures Inv(w.(pool := Occupied(w.pool, i), leases := w.leases + multiset{LeaseAt(w.pool, i)}))
  {
  }

  lemma LossKeepsInv(w: World, i: nat)
    requires Inv(w) && i < |w.pool.slots| && w.pool.slots[i].able
    ensures Inv(w.(pool := Occupied(w.pool, i), lost := w.lost + {i}, failures := w.failures + 1))
  {
  }

  lemma ExtendKeepsInv(w: World, c: Connection)
    requires Inv(w) && IsNew(w.pool, Connected(c)) && w.pool.count < w.pool.max
    ensures Inv(w.(pool := Extended(w.pool, c), leases := w.leases + multiset{Lease(w.pool.count, c)}))
  {
  }

  lemma ReleaseKeepsInv(w: World, lease: Lease)
    requires Inv(w) && lease in w.leases
    ensures lease.index < |w.pool.slots|
    ensures Inv(w.(pool := Release(w.pool, lease), leases := w.leases - multiset{lease}))
  {
  }

  lemma StepKeepsInv(w: World, e: Event)
    requires Inv(w) && Enabled(w, e)
    ensures Inv(Next(w, e))
  {
    match e
    case Get(schemaOk, connect) =>
      var i := FirstAble(w.pool.slots, 0);
      if i < |w.pool.slots| {
        if schemaOk {
          LeaseKeepsInv(w, i);
        } else {
          LossKeepsInv(w, i);
        }
      } else if w.pool.count < w.pool.max && connect.Connected? {
        ExtendKeepsInv(w, connect.connection);
      }
    case GiveBack(lease) => ReleaseKeepsInv(w, lease);
  }

  ghost predicate Legal(w: World, events: seq<Event>)
    decreases |events|
  {
    events == [] || (Enabled(w, events[0]) && Legal(Next(w, events[0]), events[1..]))
  }

  ghost function Exec(w: World, events: seq<Event>): World
    requires Legal(w, events)
    decreases |events|
  {
    if events == [] then w else Exec(Next(w, events[0]), events[1..])
  }

  lemma {:induction false} RunKeepsInv(w: World, events: seq<Event>)
    requires Inv(w) && Legal(w, events)
    ensures Inv(Exec(w, events))
    decreases |events|
  {
    if events != [] {
      StepKeepsInv(w, events[0]);
      RunKeepsInv(Next(w, events[0]), events[1..]);
    }
  }

  /** The world after a constructor whose counter is half the maximum and whose list
      holds the connections that were opened. */
  ghost function Constructed(max: nat, initial: seq<Connection>): World {
    var slots := seq(|initial|, i requires 0 <= i < |initial| => Slot(true, initial[i]));
    World(Pool(slots, max / 2, max), multiset{}, {}, 0)
  }

  ghost predicate AllDistinct(s: seq<nat>) {
    forall i, j :: 0 <= i < j < |s| ==> s[i] != s[j]
  }

  lemma ConstructedIsSound(max: nat, initial: seq<Connection>)
    requires AllDistinct(initial) && |initial| == max / 2
    ensures Inv(Constructed(max, initial))
  {
  }

  /** In every run from a constructor whose connections all opened: no connection is
      leased twice, every lease stands at its own index, list and counter agree and
      never exceed the maximum, and the unable slots are the leased ones and one
      per failed schema selection. */
  lemma EveryRunIsSafe(max: nat, initial: seq<Connection>, events: seq<Event>)
    requires AllDistinct(initial) && |initial| == max / 2
    requires Legal(Constructed(max, initial), events)
    ensures var w := Exec(Constructed(max, initial), events);
            && |w.pool.slots| == w.pool.count <= w.pool.max
            && (forall lease :: lease in w.leases ==> Filed(w.pool, lease) && w.leases[lease] == 1)
            && (forall l, m :: l in w.leases && m in w.leases && l != m ==> l.connection != m.connection)
            && (forall i :: 0 <= i < |w.pool.slots| ==>
                  (!w.pool.slots[i].able <==> LeaseAt(w.pool, i) in w.leases || i in w.lost))
            && |w.lost| == w.failures
  {
    ConstructedIsSound(max, initial);
    RunKeepsInv(Constructed(max, initial), events);
    LeasesAreExclusive(Exec(Constructed(max, initial), events));
  }

  lemma LeasesAreExclusive(w: World)
    requires Inv(w)
    ensures forall lease :: lease in w.leases ==> Filed(w.pool, lease) && w.leases[lease] == 1
    ensures forall l, m :: l in w.leases && m in w.leases && l != m ==> l.connection != m.connection
    ensures forall i :: 0 <= i < |w.pool.slots| ==>
              (!w.pool.slots[i].able <==> LeaseAt(w.pool, i) in w.leases || i in w.lost)
  {
  }

  // ---------------------------------------------------------------- MSSQL

  ghost predicate NoSchemas(events: seq<Event>) {
    forall i :: 0 <= i < |events| && events[i].Get? ==> events[i].schemaOk
  }

  lemma {:induction false} NothingIsLost(w: World, events: seq<Event>)
    requires Legal(w, events) && NoSchemas(events)
    ensures Exec(w, events).lost == w.lost && Exec(w, events).failures == w.failures
    decreases |events|
  {
    if events != [] {
      assert forall i :: 0 <= i < |events[1..]| ==> events[1..][i] == events[i + 1];
      NothingIsLost(Next(w, events[0]), events[1..]);
    }
  }

  /** The MSSQL pool makes the same step, except that a refused connection throws. */
  lemma MssqlIsMysqlWithoutSchemas(p: Pool, connect: Connect)
    ensures MssqlGet(p, connect).0 == MysqlGet(p, true, connect).0
    ensures MssqlGet(p, connect).1
            == if MysqlGet(p, true, connect).1.Empty? && p.count < p.max then Threw
               else MysqlGet(p, true, connect).1
  {
  }

  /** Every slot of a list is leased. */
  ghost predicate AllLeased(w: World) {
    forall i :: 0 <= i < |w.pool.slots| ==> LeaseAt(w.pool, i) in w.leases
  }

  /** In every run of the MSSQL pool, a null lease means that all maximum connections
      are out. */
  lemma MssqlNullMeansAllOut(max: nat, initial: seq<Connection>, events: seq<Event>, connect: Connect)
    requires AllDistinct(initial) && |initial| == max / 2
    requires Legal(Constructed(max, initial), events) && NoSchemas(events)
    ensures var w := Exec(Constructed(max, initial), events);
            MssqlGet(w.pool, connect).1 == Empty <==> |w.pool.slots| == max && AllLeased(w)
  {
    var w := Exec(Constructed(max, initial), events);
    ConstructedIsSound(max, initial);
    RunKeepsInv(Constructed(max, initial), events);
    NothingIsLost(Constructed(max, initial), events);
    MaximumStays(Constructed(max, initial), events);
    LeasesAreExclusive(w);
    var i := FirstAble(w.pool.slots, 0);
    assert i < |w.pool.slots| ==> LeaseAt(w.pool, i) !in w.leases;
  }

  lemma {:induction false} MaximumStays(w: World, events: seq<Event>)
    requires Legal(w, events)
    ensures Exec(w, events).pool.max == w.pool.max
    decreases |events|
  {
    if events != [] {
      MaximumStays(Next(w, events[0]), events[1..]);
    }
  }

  // ---------------------------------------------------------------- MySQL

  /** The connections that the constructor's loop opens before the first refusal. */
  ghost function OpenedBefore(connects: seq<Connect>): seq<Connection> {
    if connects == [] || connects[0].Refused? then []
    else [connects[0].connection] + OpenedBefore(connects[1..])
  }

  /** The list holds the connections up to the first refusal, and gets as long as the
      counter exactly when there is none. */
  lemma {:induction false} ListMatchesCounterIff(connects: seq<Connect>)
    ensures |OpenedBefore(connects)| <= |connects|
    ensures forall i :: 0 <= i < |OpenedBefore(connects)| ==> connects[i] == Connected(OpenedBefore(connects)[i])
    ensures |OpenedBefore(connects)| < |connects| ==> connects[|OpenedBefore(connects)|].Refused?
    ensures |OpenedBefore(connects)| == |connects| <==> forall i :: 0 <= i < |connects| ==> connects[i].Connected?
  {
    if connects != [] && connects[0].Connected? {
      ListMatchesCounterIff(connects[1..]);
      assert forall i :: 1 <= i < |connects| ==> connects[i] == connects[1..][i - 1];
      if forall i :: 0 <= i < |connects| ==> connects[i].Connected? {
        assert forall i :: 0 <= i < |connects[1..]| ==> connects[1..][i] == connects[i + 1];
      }
    }
  }

  ghost predicate AllFiled(w: World) {
    forall lease :: lease in w.leases ==> Filed(w.pool, lease)
  }

  ghost predicate AlwaysFiled(w: World) {
    forall events | Legal(w, events) :: AllFiled(Exec(w, events))
  }

  /** A number above all connections of a list. */
  ghost function Unused(slots: seq<Slot>): (c: Connection)
    ensures forall i :: 0 <= i < |slots| ==> slots[i].connection < c
  {
    if slots == [] then 0
    else
      var (last, c) := (slots[|slots| - 1].connection, Unused(slots[..|slots| - 1]));
      if last < c then c else last + 1
  }

  /** Where the list is shorter than the counter, some run misfiles a lease: the able
      slots are leased one by one, and the connection opened next gets an index that
      is not its list position. */
  lemma {:induction false} ShortListMisfiles(w: World) returns (events: seq<Event>)
    requires |w.pool.slots| < w.pool.count < w.pool.max
    ensures Legal(w, events) && !AllFiled(Exec(w, events))
    decreases |w.pool.slots| - FirstAble(w.pool.slots, 0)
  {
    var i := FirstAble(w.pool.slots, 0);
    if i == |w.pool.slots| {
      var c := Unused(w.pool.slots);
      events := [Get(true, Connected(c))];
      assert Exec(w, events) == Next(w, events[0]);
      assert Lease(w.pool.count, c) in Next(w, events[0]).leases;
    } else {
      var first := Get(true, Refused);
      var u := Next(w, first);
      assert FirstAble(u.pool.slots, 0) > i;
      var rest := ShortListMisfiles(u);
      events := [first] + rest;
      assert events[1..] == rest;
    }
  }

  /** In every run from the constructor all leases stand at their index exactly when
      the driver refused none of the constructor's connects. */
  lemma LeasesStayFiledIff(max: nat, connects: seq<Connect>)
    requires |connects| == max / 2 && AllDistinct(OpenedBefore(connects))
    ensures AlwaysFiled(Constructed(max, OpenedBefore(connects)))
            <==> forall i :: 0 <= i < |connects| ==> connects[i].Connected?
  {
    var initial := OpenedBefore(connects);
    ListMatchesCounterIff(connects);
    if |initial| == |connects| {
      forall events | Legal(Constructed(max, initial), events)
        ensures AllFiled(Exec(Constructed(max, initial), events))
      {
        EveryRunIsSafe(max, initial, events);
      }
    } else {
      var events := ShortListMisfiles(Constructed(max, initial));
    }
  }

  // ------------------------------------------- one connection in two hands

  /** Two leases of one connection are out, or one lease twice. */
  ghost predicate HeldTwice(w: World) {
    || (exists lease :: w.leases[lease] > 1)
    || exists l, m :: l in w.leases && m in w.leases && l != m && l.connection == m.connection
  }

  lemma {:induction false} ExecInTwo(w: World, first: seq<Event>, more: seq<Event>)
    requires Legal(w, first) && Legal(Exec(w, first), more)
    ensures Legal(w, first + more) && Exec(w, first + more) == Exec(Exec(w, first), more)
    decreases |first|
  {
    if first == [] {
      EmptyFirst(first, more);
    } else {
      assert (first + more)[1..] == first[1..] + more;
      ExecInTwo(Next(w, first[0]), first[1..], more);
    }
  }

  lemma StepThenRest(w: World, e: Event, rest: seq<Event>)
    requires Enabled(w, e) && Legal(Next(w, e), rest)
    ensures Legal(w, [e] + rest) && Exec(w, [e] + rest) == Exec(Next(w, e), rest)
  {
    assert ([e] + rest)[1..] == rest;
  }

  /** All able slots can be leased one by one. */
  lemma {:induction false} LeaseAllAble(w: World) returns (events: seq<Event>)
    ensures Legal(w, events)
    ensures var v := Exec(w, events);
            NoneAble(v.pool) && |v.pool.slots| == |w.pool.slots| && v.pool.count == w.pool.count && v.pool.max == w.pool.max
    decreases |w.pool.slots| - FirstAble(w.pool.slots, 0)
  {
    var i := FirstAble(w.pool.slots, 0);
    if i == |w.pool.slots| {
      events := [];
    } else {
      var first := Get(true, Refused);
      var u := Next(w, first);
      assert FirstAble(u.pool.slots, 0) > i;
      var rest := LeaseAllAble(u);
      events := [first] + rest;
      assert events[1..] == rest;
    }
  }

  /** The connection of slot i is out under an index `gap` above i. */
  ghost predicate OutWithGap(w: World, i: nat, gap: nat) {
    i < |w.pool.slots| && Lease(i + gap, w.pool.slots[i].connection) in w.leases
  }

  lemma OpenOne(w: World, c: Connection, gap: nat)
    requires NoneAble(w.pool) && IsNew(w.pool, Connected(c))
    requires |w.pool.slots| + gap == w.pool.count < w.pool.max
    ensures var u := Next(w, Get(true, Connected(c)));
            && u.pool == Extended(w.pool, c)
            && NoneAble(u.pool)
            && w.leases <= u.leases
            && OutWithGap(u, |w.pool.slots|, gap)
  {
  }

  /** With no slot able, n more connections can be opened below the maximum. */
  lemma {:induction false} OpenMore(w: World, n: nat, gap: nat) returns (events: seq<Event>)
    requires NoneAble(w.pool) && |w.pool.slots| + gap == w.pool.count && w.pool.count + n <= w.pool.max
    ensures Legal(w, events)
    ensures var v := Exec(w, events);
            && NoneAble(v.pool) && |v.pool.slots| == |w.pool.slots| + n
            && w.pool.slots <= v.pool.slots && w.leases <= v.leases
            && forall i :: |w.pool.slots| <= i < |v.pool.slots| ==> OutWithGap(v, i, gap)
    decreases n
  {
    if n == 0 {
      events := [];
    } else {
      var c := Unused(w.pool.slots);
      var first := Get(true, Connected(c));
      OpenOne(w, c, gap);
      var u := Next(w, first);
      var rest := OpenMore(u, n - 1, gap);
      events := [first] + rest;
      assert events[1..] == rest;
      StaysOut(u, Exec(u, rest), |w.pool.slots|, gap);
    }
  }

  lemma StaysOut(u: World, v: World, i: nat, gap: nat)
    requires OutWithGap(u, i, gap) && u.pool.slots <= v.pool.slots && u.leases <= v.leases
    ensures OutWithGap(v, i, gap)
  {
    assert v.pool.slots[i] == u.pool.slots[i];
  }

  /** Giving back slot i's lease frees slot i + gap, whose own lease is still out, and
      the next lease hands its connection out again. */
  lemma ReturnFreesTheWrongSlot(w: World, i: nat, gap: nat) returns (events: seq<Event>)
    requires gap >= 1 && NoneAble(w.pool) && OutWithGap(w, i, gap) && OutWithGap(w, i + gap, gap)
    ensures Legal(w, events) && HeldTwice(Exec(w, events))
  {
    var j := i + gap;
    var mine := Lease(j, w.pool.slots[i].connection);
    var other := Lease(j + gap, w.pool.slots[j].connection);
    var u := Next(w, GiveBack(mine));
    assert u.pool.slots[j].able && forall k :: 0 <= k < j ==> !u.pool.slots[k].able;
    assert FirstAble(u.pool.slots, 0) == j;
    var v := Next(u, Get(true, Refused));
    assert LeaseAt(w.pool, j) in v.leases && other in v.leases;
    events := [GiveBack(mine), Get(true, Refused)];
    TwoSteps(w, GiveBack(mine), Get(true, Refused));
  }

  lemma TwoSteps(w: World, e: Event, f: Event)
    requires Enabled(w, e) && Enabled(Next(w, e), f)
    ensures Legal(w, [e, f]) && Exec(w, [e, f]) == Next(Next(w, e), f)
  {
    OneStep(w, e);
    OneStep(Next(w, e), f);
    ExecInTwo(w, [e], [f]);
    assert [e] + [f] == [e, f];
  }

  lemma OneStep(w: World, e: Event)
    requires Enabled(w, e)
    ensures Legal(w, [e]) && Exec(w, [e]) == Next(w, e)
  {
    StepThenRest(w, e, []);
    assert [e] + [] == [e];
  }

  lemma GapAllowsTwoHands(w: World, gap: nat) returns (events: seq<Event>)
    requires |w.pool.slots| + gap == w.pool.count <= w.pool.max
    requires 1 <= gap < w.pool.max - w.pool.count
    ensures Legal(w, events) && HeldTwice(Exec(w, events))
  {
    var leasing := LeaseAllAble(w);
    var u := Exec(w, leasing);
    var opening := OpenMore(u, gap + 1, gap);
    var v := Exec(u, opening);
    var i := |u.pool.slots|;
    assert OutWithGap(v, i, gap) && OutWithGap(v, i + gap, gap);
    var returning := ReturnFreesTheWrongSlot(v, i, gap);
    ExecInTwo(u, opening, returning);
    ExecInTwo(w, leasing, opening + returning);
    events := leasing + (opening + returning);
  }

  /** The lease stands where its index says, or was opened on demand behind the
      `built` slots of the constructor and stands `gap` below its index. */
  ghost predicate FiledOrGapped(p: Pool, lease: Lease, built: nat, gap: nat) {
    if lease.index < built then Filed(p, lease)
    else built + gap <= lease.index && Filed(p, lease.(index := lease.index - gap))
  }

  /** What holds when the gap is too wide for a gapped index to be inside the list:
      the slots of the constructor are as in a sound pool, and all later ones stay
      out for ever. */
  ghost predicate WideGapInv(p: Pool, leases: multiset<Lease>, built: nat, gap: nat) {
    && |p.slots| + gap == p.count <= p.max <= built + gap + gap
    && built <= |p.slots|
    && (forall i, j :: 0 <= i < j < |p.slots| ==> p.slots[i].connection != p.slots[j].connection)
    && (forall lease :: lease in leases ==> FiledOrGapped(p, lease, built, gap) && leases[lease] == 1)
    && (forall i :: 0 <= i < built && p.slots[i].able ==> LeaseAt(p, i) !in leases)
    && (forall i :: built <= i < |p.slots| ==> !p.slots[i].able)
  }

  lemma WideGapOccupies(p: Pool, leases: multiset<Lease>, i: nat, built: nat, gap: nat)
    requires WideGapInv(p, leases, built, gap) && i < built && p.slots[i].able
    ensures WideGapInv(Occupied(p, i), leases, built, gap)
    ensures WideGapInv(Occupied(p, i), leases + multiset{LeaseAt(p, i)}, built, gap)
  {
  }

  lemma WideGapExtends(p: Pool, leases: multiset<Lease>, c: Connection, built: nat, gap: nat)
    requires WideGapInv(p, leases, built, gap) && IsNew(p, Connected(c)) && p.count < p.max
    ensures WideGapInv(Extended(p, c), leases + multiset{Lease(p.count, c)}, built, gap)
  {
  }

  lemma WideGapReleases(p: Pool, leases: multiset<Lease>, lease: Lease, built: nat, gap: nat)
    requires WideGapInv(p, leases, built, gap) && lease in leases && lease.index < |p.slots|
    ensures WideGapInv(Release(p, lease), leases - multiset{lease}, built, gap)
  {
  }

  lemma {:induction false} WideGapRun(w: World, events: seq<Event>, built: nat, gap: nat)
    requires WideGapInv(w.pool, w.leases, built, gap) && Legal(w, events)
    ensures WideGapInv(Exec(w, events).pool, Exec(w, events).leases, built, gap)
    decreases |events|
  {
    if events != [] {
      match events[0] {
        case Get(schemaOk, connect) =>
          var i := FirstAble(w.pool.slots, 0);
          if i < |w.pool.slots| {
            WideGapOccupies(w.pool, w.leases, i, built, gap);
          } else if w.pool.count < w.pool.max && connect.Connected? {
            WideGapExtends(w.pool, w.leases, connect.connection, built, gap);
          }
        case GiveBack(lease) => WideGapReleases(w.pool, w.leases, lease, built, gap);
      }
      WideGapRun(Next(w, events[0]), events[1..], built, gap);
    }
  }

  lemma WideGapIsExclusive(w: World, built: nat, gap: nat)
    requires WideGapInv(w.pool, w.leases, built, gap)
    ensures !HeldTwice(w)
  {
  }

  ghost predicate CanBeHeldTwice(w: World) {
    exists events :: Legal(w, events) && HeldTwice(Exec(w, events))
  }

  /** With `gap` of the constructor's connects missing, some run puts one connection
      into two hands exactly when there is a gap and more connections than the gap
      can be opened on demand. */
  lemma TwoHandsIff(max: nat, connects: seq<Connect>)
    requires |connects| == max / 2 && AllDistinct(OpenedBefore(connects))
    ensures var (w, gap) := (Constructed(max, OpenedBefore(connects)), max / 2 - |OpenedBefore(connects)|);
            CanBeHeldTwice(w) <==> 1 <= gap < max - max / 2
  {
    ListMatchesCounterIff(connects);
    var initial := OpenedBefore(connects);
    var (w, gap) := (Constructed(max, initial), max / 2 - |initial|);
    if 1 <= gap < max - max / 2 {
      var events := GapAllowsTwoHands(w, gap);
      assert CanBeHeldTwice(w);
    } else {
      forall events | Legal(w, events)
        ensures !HeldTwice(Exec(w, events))
      {
        if gap == 0 {
          EveryRunIsSafe(max, initial, events);
        } else {
          WideGapRun(w, events, |initial|, gap);
          WideGapIsExclusive(Exec(w, events), |initial|, gap);
        }
      }
    }
  }

  /** In every run, the pool answers null whatever the driver says exactly when the
      list is at its maximum and each slot is leased or lost. */
  lemma MysqlNullMeansAllOutOrLost(max: nat, initial: seq<Connection>, events: seq<Event>)
    requires AllDistinct(initial) && |initial| == max / 2
    requires Legal(Constructed(max, initial), events)
    ensures var w := Exec(Constructed(max, initial), events);
            (forall schemaOk, connect :: MysqlGet(w.pool, schemaOk, connect).1 == Empty)
            <==> |w.pool.slots| == max
                 && forall i :: 0 <= i < |w.pool.slots| ==> LeaseAt(w.pool, i) in w.leases || i in w.lost
  {
    var w := Exec(Constructed(max, initial), events);
    ConstructedIsSound(max, initial);
    RunKeepsInv(Constructed(max, initial), events);
    MaximumStays(Constructed(max, initial), events);
    LeasesAreExclusive(w);
    assert MysqlGet(w.pool, true, Connected(0)).1 == Empty
           <==> |w.pool.slots| == max && FirstAble(w.pool.slots, 0) == |w.pool.slots|;
  }

  /** A lost slot stays lost. */
  lemma {:induction false} LostForGood(w: World, events: seq<Event>)
    requires Legal(w, events)
    ensures w.lost <= Exec(w, events).lost && w.failures <= Exec(w, events).failures
    decreases |events|
  {
    if events != [] {
      LostForGood(Next(w, events[0]), events[1..]);
    }
  }

  /** Every failed schema selection costs a slot for good: once the failures reach
      the maximum, the pool answers null for ever. */
  lemma ExhaustedByFailures(w: World, schemaOk: bool, connect: Connect)
    requires Inv(w) && w.failures == w.pool.max
    ensures MysqlGet(w.pool, schemaOk, connect) == (w.pool, Empty)
    ensures w.leases == multiset{}
  {
    AllSlotsLost(w);
    forall lease
      ensures lease !in w.leases
    {
      if Filed(w.pool, lease) {
        assert lease == LeaseAt(w.pool, lease.index) && lease.index in w.lost;
      }
    }
  }

  lemma AllSlotsLost(w: World)
    requires Inv(w) && w.failures == w.pool.max
    ensures |w.pool.slots| == w.pool.max
    ensures forall i :: 0 <= i < |w.pool.slots| ==> i in w.lost
  {
    var all := UpTo(|w.pool.slots|);
    assert all * w.lost == w.lost;
    assert |all - w.lost| == |all| - |w.lost|;
    assert all - w.lost == {};
    forall i: nat | i < |w.pool.slots|
      ensures i in w.lost
    {
      assert i in all && i !in all - w.lost;
    }
  }

  /** The numbers below n. */
  ghost function UpTo(n: nat): (s: set<nat>)
    ensures |s| == n && forall x: nat :: x in s <==> x < n
  {
    if n == 0 then {} else UpTo(n - 1) + {n - 1}
  }

  // ---------------------------------------------------------------- the classes

  class CMSSQLPool {
    var sqlConnectionList: seq<Slot>
    var allocatedConnectionCount: nat
    const maxConnectionCount: nat

    ghost function State(): Pool
      reads this
    {
      Pool(sqlConnectionList, allocatedConnectionCount, maxConnectionCount)
    }

    /** `initial` are the connections that the constructor's loop gets; had one been
        refused, the exception would have left no pool. */
    constructor (maxConnectionCount: nat, initial: seq<Connection>)
      requires |initial| == maxConnectionCount / 2
      ensures State() == Constructed(maxConnectionCount, initial).pool
    {
      this.maxConnectionCount := maxConnectionCount;
      allocatedConnectionCount := maxConnectionCount / 2;
      sqlConnectionList := [];
      new;
      for i := 0 to allocatedConnectionCount
        invariant allocatedConnectionCount == |initial|
        invariant |sqlConnectionList| == i
        invariant forall k :: 0 <= k < i ==> sqlConnectionList[k] == Slot(true, initial[k])
      {
        sqlConnectionList := sqlConnectionList + [Slot(true, initial[i])];
      }
    }

    method GetConnection(connect: Connect) returns (answer: Answer)
      modifies this
      ensures (State(), answer) == MssqlGet(old(State()), connect)
    {
      for i := 0 to |sqlConnectionList|
        invariant State() == old(State())
        invariant FirstAble(sqlConnectionList, 0) == FirstAble(sqlConnectionList, i)
      {
        if sqlConnectionList[i].able {
          sqlConnectionList := sqlConnectionList[i := sqlConnectionList[i].(able := false)];
          return Leased(Lease(i, sqlConnectionList[i].connection));
        }
      }
      if allocatedConnectionCount < maxConnectionCount {
        match connect
        case Refused => return Threw;
        case Connected(c) =>
          sqlConnectionList := sqlConnectionList + [Slot(false, c)];
          answer := Leased(Lease(allocatedConnectionCount, c));
          allocatedConnectionCount := allocatedConnectionCount + 1;
          return;
      }
      return Empty;
    }

    method GiveBack(lease: Lease)
      requires lease.index < |sqlConnectionList|
      modifies this
      ensures State() == Release(old(State()), lease)
    {
      sqlConnectionList := sqlConnectionList[lease.index := sqlConnectionList[lease.index].(able := true)];
    }
  }

  class CMySQLPool {
    var sqlConnectionList: seq<Slot>
    var allocatedConnectionCount: nat
    const maxConnectionCount: nat

    ghost function State(): Pool
      reads this
    {
      Pool(sqlConnectionList, allocatedConnectionCount, maxConnectionCount)
    }

    /** `connects` are the answers of the driver; the first refusal ends the loop but
        leaves the counter as it was set. */
    constructor (maxConnectionCount: nat, connects: seq<Connect>)
      requires |connects| == maxConnectionCount / 2
      ensures State() == Constructed(maxConnectionCount, OpenedBefore(connects)).pool
    {
      this.maxConnectionCount := maxConnectionCount;
      allocatedConnectionCount := maxConnectionCount / 2;
      sqlConnectionList := [];
      new;
      var i := 0;
      ghost var made: seq<Connection> := [];
      assert connects[0..] == connects;
      while i < allocatedConnectionCount && connects[i].Connected?
        invariant allocatedConnectionCount == |connects| && i <= |connects| && |made| == i
        invariant made + OpenedBefore(connects[i..]) == OpenedBefore(connects)
        invariant sqlConnectionList == seq(i, k requires 0 <= k < i => Slot(true, made[k]))
      {
        assert connects[i..][1..] == connects[i + 1..];
        made := made + [connects[i].connection];
        sqlConnectionList := sqlConnectionList + [Slot(true, connects[i].connection)];
        i := i + 1;
      }
      assert made + [] == made;
    }

    method GetConnection(schemaOk: bool, connect: Connect) returns (answer: Answer)
      modifies this
      ensures (State(), answer) == MysqlGet(old(State()), schemaOk, connect)
    {
      for i := 0 to |sqlConnectionList|
        invariant State() == old(State())
        invariant FirstAble(sqlConnectionList, 0) == FirstAble(sqlConnectionList, i)
      {
        if sqlConnectionList[i].able {
          sqlConnectionList := sqlConnectionList[i := sqlConnectionList[i].(able := false)];
          if !schemaOk {
            return Empty;
          }
          return Leased(Lease(i, sqlConnectionList[i].connection));
        }
      }
      if allocatedConnectionCount < maxConnectionCount {
        match connect
        case Refused =>
        case Connected(c) =>
          sqlConnectionList := sqlConnectionList + [Slot(false, c)];
          answer := Leased(Lease(allocatedConnectionCount, c));
          allocatedConnectionCount := allocatedConnectionCount + 1;
          return;
      }
      return Empty;
    }

    method GiveBack(lease: Lease)
      requires lease.index < |sqlConnectionList|
      modifies this
      ensures State() == Release(old(State()), lease)
    {
      sqlConnectionList := sqlConnectionList[lease.index := sqlConnectionList[lease.index].(able := true)];
    }
  }
}
