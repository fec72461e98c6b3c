/** The sweep of the future-processing thread: erase while iterating, over a list
    whose `erase` leaves the iterator one step behind the removed element. */
module FutureSweeps {
  import opened Sequences
  import opened CircularLinkedLists

  /** What a sweep leaves in the list, what it handled and in which order, and
      how many readiness questions it has asked since the start. */
  datatype Swept<T> = Swept(rest: seq<T>, handled: seq<T>, asked: nat)

  /** The answer to question number `n`, put to element `x`. */
  type Readiness<!T> = (nat, T) -> bool

  /** The sweep from list position `i`. Removing position i moves the iterator to
      position i - 1, which is asked again; removing position 0 moves it onto the
      sentinel, which ends the sweep. */
  ghost function Sweep<T>(items: seq<T>, i: nat, ready: Readiness<T>, asked: nat): (s: Swept<T>)
    requires i <= |items|
    ensures |s.rest| + |s.handled| == |items|
    decreases |items|, |items| - i
  {
    if i == |items| then Swept(items, [], asked)
    else if !ready(asked, items[i]) then Sweep(items, i + 1, ready, asked + 1)
    else if i == 0 then Swept(items[1..], [items[0]], asked + 1)
    else
      var s := Sweep(Without(items, i), i - 1, ready, asked + 1);
      s.(handled := [items[i]] + s.handled)
  }

  // ---------------------------------------------- any answers, however they change

  /** One of the questions from `from` up to `to`, put to x, is answered yes. */
  ghost predicate AnsweredReady<T>(x: T, ready: Readiness<T>, from: nat, to: nat) {
    exists k :: from <= k < to && ready(k, x)
  }

  /** Whatever the answers, every listed element is either kept or handled, as often
      as it was listed. */
  lemma {:induction false} SweepConserves<T>(items: seq<T>, i: nat, ready: Readiness<T>, asked: nat)
    requires i <= |items|
    ensures var s := Sweep(items, i, ready, asked);
            multiset(s.rest) + multiset(s.handled) == multiset(items)
    decreases |items|, |items| - i
  {
    if i < |items| {
      if !ready(asked, items[i]) {
        SweepConserves(items, i + 1, ready, asked + 1);
      } else {
        WithoutRemovesOne(items, i);
        if i == 0 {
          assert items[1..] == Without(items, 0);
        } else {
          SweepConserves(Without(items, i), i - 1, ready, asked + 1);
        }
      }
    }
  }

  /** Whatever the answers, the kept elements stay in their order. */
  lemma {:induction false} SweepKeepsOrder<T>(items: seq<T>, i: nat, ready: Readiness<T>, asked: nat)
    requires i <= |items|
    ensures IsSubsequence(Sweep(items, i, ready, asked).rest, items)
    decreases |items|, |items| - i
  {
    if i == |items| {
      SubsequenceRefl(items);
    } else if !ready(asked, items[i]) {
      SweepKeepsOrder(items, i + 1, ready, asked + 1);
    } else if i == 0 {
      assert items[1..] == Without(items, 0);
      SubsequenceRefl(items[1..]);
      SubsequenceOfWithout(items[1..], items, 0);
    } else {
      var rest := Sweep(Without(items, i), i - 1, ready, asked + 1).rest;
      SweepKeepsOrder(Without(items, i), i - 1, ready, asked + 1);
      SubsequenceOfWithout(rest, items, i);
    }
  }

  /** Whatever the answers, only elements that answered ready during the sweep are
      handled. */
  lemma {:induction false} SweepHandlesReady<T>(items: seq<T>, i: nat, ready: Readiness<T>, asked: nat)
    requires i <= |items|
    ensures var s := Sweep(items, i, ready, asked);
            asked <= s.asked && forall x :: x in s.handled ==> AnsweredReady(x, ready, asked, s.asked)
    decreases |items|, |items| - i
  {
    if i < |items| {
      var s := Sweep(items, i, ready, asked);
      if !ready(asked, items[i]) {
        SweepHandlesReady(items, i + 1, ready, asked + 1);
        AnsweredEarlier(s.handled, ready, asked, s.asked);
      } else if i > 0 {
        var later := Sweep(Without(items, i), i - 1, ready, asked + 1);
        SweepHandlesReady(Without(items, i), i - 1, ready, asked + 1);
        AnsweredEarlier(later.handled, ready, asked, s.asked);
      }
    }
  }

  lemma AnsweredEarlier<T>(xs: seq<T>, ready: Readiness<T>, from: nat, to: nat)
    requires forall x :: x in xs ==> AnsweredReady(x, ready, from + 1, to)
    ensures forall x :: x in xs ==> AnsweredReady(x, ready, from, to)
  {
  }

  // ---------------------------------------------- answers that do not change

  /** The elements that satisfy p, in order. */
  ghost function Select<T>(s: seq<T>, p: T -> bool): seq<T> {
    if s == [] then []
    else if p(s[0]) then [s[0]] + Select(s[1..], p)
    else Select(s[1..], p)
  }

  ghost function Steady<T>(done: T -> bool): Readiness<T> {
    (asked, x) => done(x)
  }

  ghost function Negated<T>(p: T -> bool): T -> bool {
    x => !p(x)
  }

  /** With everything before position i >= 1 unready, the sweep handles exactly the
      ready elements from i on. */
  lemma {:induction false} SteadySweepFrom<T>(items: seq<T>, i: nat, done: T -> bool, asked: nat)
    requires i <= |items|
    requires forall k :: 0 <= k < i ==> !done(items[k])
    requires i == 0 ==> items == [] || !done(items[0])
    ensures var s := Sweep(items, i, Steady(done), asked);
            && s.handled == Select(items[i..], done)
            && s.rest == items[..i] + Select(items[i..], Negated(done))
    decreases |items|, |items| - i
  {
    if i == |items| {
    } else if !done(items[i]) {
      SteadySweepFrom(items, i + 1, done, asked + 1);
      assert items[i..][1..] == items[i + 1..];
      assert items[..i] + [items[i]] == items[..i + 1];
    } else {
      // the predecessor is asked again, is still unready, and the sweep moves on
      var shorter := Without(items, i);
      SteadySweepFrom(shorter, i - 1, done, asked + 1);
      assert shorter[i - 1..] == [items[i - 1]] + items[i + 1..];
      assert shorter[i - 1..][1..] == items[i + 1..];
      assert items[i..][1..] == items[i + 1..];
      assert items[..i - 1] + [items[i - 1]] == items[..i];
    }
  }

  /** With steady answers: if the first element is ready, it alone is handled;
      otherwise all ready elements are, in order, and the others stay in order. */
  lemma SteadySweep<T>(items: seq<T>, done: T -> bool)
    ensures var s := Sweep(items, 0, Steady(done), 0);
            if items != [] && done(items[0])
            then s.handled == [items[0]] && s.rest == items[1..]
            else s.handled == Select(items, done) && s.rest == Select(items, Negated(done))
  {
    if items == [] || !done(items[0]) {
      SteadySweepFrom(items, 0, done, 0);
      assert items[0..] == items;
    }
  }

  /** So one sweep handles everything that is ready exactly when the first element
      is unready or is the only ready one. */
  lemma OneSweepIsCompleteIff<T>(items: seq<T>, done: T -> bool)
    ensures Sweep(items, 0, Steady(done), 0).handled == Select(items, done)
            <==> (items == [] || !done(items[0]) || Select(items[1..], done) == [])
  {
    SteadySweep(items, done);
  }

  // ---------------------------------------------- sweep after sweep

  /** What n sweeps leave in the list, and what they handle. */
  ghost function Rounds<T>(items: seq<T>, done: T -> bool, n: nat): (seq<T>, seq<T>)
    decreases n
  {
    if n == 0 then (items, [])
    else
      var s := Sweep(items, 0, Steady(done), 0);
      var (rest, handled) := Rounds(s.rest, done, n - 1);
      (rest, s.handled + handled)
  }

  /** How many elements at the front are ready. */
  ghost function ReadyPrefix<T>(items: seq<T>, done: T -> bool): (k: nat)
    ensures k <= |items|
  {
    if items == [] || !done(items[0]) then 0 else 1 + ReadyPrefix(items[1..], done)
  }

  lemma {:induction false} SelectAll<T>(items: seq<T>, p: T -> bool)
    requires forall x :: x in items ==> p(x)
    ensures Select(items, p) == items && Select(items, Negated(p)) == []
  {
    if items != [] {
      SelectAll(items[1..], p);
    }
  }

  lemma {:induction false} SelectIsIn<T>(items: seq<T>, p: T -> bool, x: T)
    ensures x in Select(items, p) ==> p(x)
  {
    if items != [] {
      SelectIsIn(items[1..], p, x);
    }
  }

  /** One sweep of a list without a ready element changes nothing. */
  lemma QuietSweep<T>(items: seq<T>, done: T -> bool)
    requires forall x :: x in items ==> !done(x)
    ensures var s := Sweep(items, 0, Steady(done), 0); s.rest == items && s.handled == []
  {
    SteadySweep(items, done);
    SelectAll(items, Negated(done));
    SelectNegatedTwice(items, done);
  }

  lemma {:induction false} SelectNegatedTwice<T>(items: seq<T>, done: T -> bool)
    ensures Select(items, Negated(Negated(done))) == Select(items, done)
  {
    if items != [] {
      SelectNegatedTwice(items[1..], done);
    }
  }

  lemma {:induction false} QuietRounds<T>(items: seq<T>, done: T -> bool, n: nat)
    requires forall x :: x in items ==> !done(x)
    ensures Rounds(items, done, n) == (items, [])
    decreases n
  {
    if n > 0 {
      QuietSweep(items, done);
      QuietRounds(items, done, n - 1);
      assert Sweep(items, 0, Steady(done), 0).handled + [] == [];
    }
  }

  /** While the front is ready, a round handles one element. */
  lemma {:induction false} EachRoundTakesOne<T>(items: seq<T>, done: T -> bool, n: nat)
    requires n <= ReadyPrefix(items, done)
    ensures Rounds(items, done, n) == (items[n..], items[..n])
  {
    if n > 0 {
      SteadySweep(items, done);
      EachRoundTakesOne(items[1..], done, n - 1);
      assert items[1..][n - 1..] == items[n..] && [items[0]] + items[1..][..n - 1] == items[..n];
    } else {
      assert items[0..] == items;
    }
  }

  /** The round after those handles all that is still ready, and no later one does
      anything. */
  lemma {:induction false} OneMoreRoundTakesAll<T>(items: seq<T>, done: T -> bool, n: nat)
    requires n > ReadyPrefix(items, done)
    ensures Rounds(items, done, n) == (Select(items, Negated(done)), Select(items, done))
    decreases n
  {
    SteadySweep(items, done);
    if items == [] || !done(items[0]) {
      var quiet := Select(items, Negated(done));
      forall x | x in quiet
        ensures !done(x)
      {
        SelectIsIn(items, Negated(done), x);
      }
      QuietRounds(quiet, done, n - 1);
      assert Select(items, done) + [] == Select(items, done);
    } else {
      OneMoreRoundTakesAll(items[1..], done, n - 1);
    }
  }

  lemma JoinFirst<T>(items: seq<T>, k: nat, more: seq<T>)
    requires 1 <= k <= |items|
    ensures [items[0]] + (items[1..][..k - 1] + more) == items[..k] + more
  {
  }

  lemma {:induction false} SelectFromPrefix<T>(items: seq<T>, done: T -> bool)
    ensures var k := ReadyPrefix(items, done);
            Select(items, done) == items[..k] + Select(items[k..], done)
  {
    var k := ReadyPrefix(items, done);
    if k == 0 {
      assert items[0..] == items;
    } else {
      var rest := items[1..];
      SelectFromPrefix(rest, done);
      JoinFirst(items, k, Select(rest[k - 1..], done));
      assert rest[k - 1..] == items[k..];
    }
  }

  /** One round for each ready element at the front, and one more if anything behind
      the first unready one is ready. */
  ghost function RoundsNeeded<T>(items: seq<T>, done: T -> bool): nat {
    var k := ReadyPrefix(items, done);
    if Select(items[k..], done) == [] then k else k + 1
  }

  /** With steady answers, n sweeps have handled everything ready, in order, exactly
      from this number on. */
  lemma RoundsAreCompleteIff<T>(items: seq<T>, done: T -> bool, n: nat)
    ensures Rounds(items, done, n).1 == Select(items, done) <==> n >= RoundsNeeded(items, done)
  {
    var k := ReadyPrefix(items, done);
    SelectFromPrefix(items, done);
    if n <= k {
      EachRoundTakesOne(items, done, n);
      assert |items[..n]| == n;
    } else {
      OneMoreRoundTakesAll(items, done, n);
    }
  }

  // ---------------------------------------------- the loop on the linked list

  /** The iterator stands on list position `at`, where -1 and the length are both the
      end: the sentinel, or null while nothing was ever linked. */
  ghost predicate StandsAt<T>(list: CircularLinkedList<T>, it: NodeData?<T>, at: int)
    reads list, list.Repr
  {
    && list.Valid()
    && -1 <= at <= |list.items|
    && if 0 <= at < |list.items| then list.IsLinked() && it == list.ring[at + 1]
       else it == if list.IsLinked() then list.head else null
  }

  lemma AtEndIff<T>(list: CircularLinkedList<T>, it: NodeData?<T>, at: int)
    requires StandsAt(list, it, at)
    ensures it == (if list.IsLinked() then list.head else null) <==> at == -1 || at == |list.items|
  {
  }

  /** One visit: erase the element at list position i when it is ready, then step
      the iterator. The step leads to position i - 1 after an erasure and to
      position i + 1 otherwise. */
  method Visit<T>(list: CircularLinkedList<T>, it: NodeData<T>, ghost i: nat, isReady: bool)
    returns (next: NodeData?<T>)
    requires StandsAt(list, it, i) && i < |list.items|
    modifies list.Repr
    ensures list.items == if isReady then Without(old(list.items), i) else old(list.items)
    ensures StandsAt(list, next, if isReady then i - 1 else i + 1)
    ensures list.IsLinked() && list.Repr == old(list.Repr)
  {
    if isReady {
      var _ := list.Erase(it, i + 1);
    } else {
      assert it.next == list.ring[CircularLinkedList<T>.Succ(i + 1, |list.ring|)];
    }
    next := it.next;
  }

  /** A sweep of `start` has handled `handled` so far, holds `items`, and stands on
      position `at`, where -1 and the length are the sentinel. */
  ghost predicate OnTrack<T>(start: seq<T>, ready: Readiness<T>, items: seq<T>, at: int, asked: nat, handled: seq<T>) {
    var goal := Sweep(start, 0, ready, 0);
    && -1 <= at <= |items|
    && if at == -1 then goal == Swept(items, handled, asked)
       else
         var todo := Sweep(items, at, ready, asked);
         goal == Swept(todo.rest, handled + todo.handled, todo.asked)
  }

  lemma OnTrackNext<T>(start: seq<T>, ready: Readiness<T>, items: seq<T>, at: nat, asked: nat, handled: seq<T>)
    requires OnTrack(start, ready, items, at, asked, handled) && at < |items|
    ensures var r := ready(asked, items[at]);
            OnTrack(start, ready, if r then Without(items, at) else items, if r then at - 1 else at + 1, asked + 1,
                    if r then handled + [items[at]] else handled)
  {
  }

  /** The iterator loop of the processing thread. `ready` stands for the futures'
      own answers, one per question. */
  method SweepFutures<T>(list: CircularLinkedList<T>, ready: Readiness<T>)
    returns (handled: seq<T>)
    requires list.Valid()
    modifies list.Repr
    ensures list.Valid() && list.Repr == old(list.Repr)
    ensures list.items == Sweep(old(list.items), 0, ready, 0).rest
    ensures handled == Sweep(old(list.items), 0, ready, 0).handled
  {
    handled := [];
    var asked := 0;  // only numbers the questions
    ghost var start, at := list.items, 0;
    var it := list.Begin();
    var end := list.End();
    assert OnTrack(start, ready, list.items, at, asked, handled);
    AtEndIff(list, it, at);
    while it != end
      invariant StandsAt(list, it, at) && list.Repr == old(list.Repr)
      invariant it == end <==> at == -1 || at == |list.items|
      invariant OnTrack(start, ready, list.items, at, asked, handled)
      decreases |list.items|, |list.items| - at
    {
      var x := it.data;
      var isReady := ready(asked, x);
      OnTrackNext(start, ready, list.items, at, asked, handled);
      if isReady {
        handled := handled + [x];
      }
      it := Visit(list, it, at, isReady);
      at := if isReady then at - 1 else at + 1;
      asked := asked + 1;
      end := list.End();
      AtEndIff(list, it, at);
    }
  }
}
