/** The watchdog's two parallel lists: the monitored clients and the process handles
    that the monitoring thread waits on. */
module WatchDogs {
  import opened Sequences

  type Handle = nat

  /** What a client is started from; the strings of its configuration are one value. */
  datatype Program = Program(text: string, enableRestart: bool)

  datatype Client = Client(program: Program, process: Handle)

  /** How starting a process ends. Any failure after the process exists counts as
      failed. */
  datatype Spawn = Started(process: Handle) | Failed

  /** How one wait ends: the handle at an index is signalled, or the wait fails. A
      restart, if there is one, ends as `spawn` says. */
  datatype Wait = Signalled(index: nat, spawn: Spawn) | WaitFailed

  function Processes(clients: seq<Client>): seq<Handle> {
    seq(|clients|, i requires 0 <= i < |clients| => clients[i].process)
  }

  function Programs(clients: seq<Client>): seq<Program> {
    seq(|clients|, i requires 0 <= i < |clients| => clients[i].program)
  }

  /** The lists, and the handles closed so far. */
  datatype Lists = Lists(clients: seq<Client>, handles: seq<Handle>, closed: seq<Handle>)

  /** Equal lengths and, index by index, the handle of the client. */
  ghost predicate Matching(s: Lists) {
    && |s.clients| == |s.handles|
    && forall i :: 0 <= i < |s.clients| ==> s.handles[i] == s.clients[i].process
  }

  /** The restarted client of an exit, if there is one. */
  ghost function Restarted(s: Lists, i: nat, spawn: Spawn): seq<Client>
    requires i < |s.clients|
  {
    if s.clients[i].program.enableRestart && spawn.Started?
    then [Client(s.clients[i].program, spawn.process)] else []
  }

  /** One exited child: the restarted client goes to the end of both lists, and the
      exited one leaves both. */
  ghost function Exit(s: Lists, i: nat, spawn: Spawn): Lists
    requires i < |s.clients| == |s.handles|
  {
    var more := Restarted(s, i, spawn);
    Lists(Without(s.clients, i) + more, Without(s.handles, i) + Processes(more), s.closed + [s.handles[i]])
  }

  /** An exit keeps the lists matching and closes exactly the handle it removes. */
  lemma ExitKeepsMatching(s: Lists, i: nat, spawn: Spawn)
    requires Matching(s) && i < |s.clients|
    ensures var t := Exit(s, i, spawn);
            Matching(t) && t.closed == s.closed + [s.clients[i].process]
  {
  }

  /** What an exit leaves: with the restart flag set and the new process started, the
      client stands at the end with the new handle; otherwise it is gone. */
  lemma ExitLeaves(s: Lists, i: nat, spawn: Spawn)
    requires Matching(s) && i < |s.clients|
    ensures var (t, c) := (Exit(s, i, spawn), s.clients[i]);
            if c.program.enableRestart && spawn.Started?
            then && t.clients == s.clients[..i] + s.clients[i + 1..] + [Client(c.program, spawn.process)]
                 && t.handles == s.handles[..i] + s.handles[i + 1..] + [spawn.process]
            else && t.clients == s.clients[..i] + s.clients[i + 1..]
                 && t.handles == s.handles[..i] + s.handles[i + 1..]
  {
    assert Processes([Client(s.clients[i].program, 0)]) == [0];
  }

  lemma ExitAndHandles(s: Lists, i: nat, spawn: Spawn)
    requires i < |s.clients| == |s.handles|
    ensures var t := Exit(s, i, spawn);
            multiset(t.closed) + multiset(t.handles)
            == multiset(s.closed) + multiset(s.handles) + multiset(Processes(Restarted(s, i, spawn)))
  {
    WithoutRemovesOne(s.handles, i);
  }

  lemma ProgramsOfJoined(older: seq<Client>, more: seq<Client>)
    ensures Programs(older + more) == Programs(older) + Programs(more)
  {
  }

  lemma ProgramsOfRestarted(s: Lists, i: nat, spawn: Spawn)
    requires i < |s.clients|
    ensures Programs(Restarted(s, i, spawn))
            == if Restarted(s, i, spawn) == [] then [] else [s.clients[i].program]
  {
  }

  /** The monitored programs stay the same exactly when the exited program is to be
      restarted and its new process starts; otherwise they lose just that program. */
  lemma ExitAndPrograms(s: Lists, i: nat, spawn: Spawn)
    requires i < |s.clients| == |s.handles|
    ensures var (before, after) := (multiset(Programs(s.clients)), multiset(Programs(Exit(s, i, spawn).clients)));
            && (after == before <==> s.clients[i].program.enableRestart && spawn.Started?)
            && (after != before ==> before == after + multiset{s.clients[i].program})
  {
    RestartedKeepsPrograms(s, i, spawn);
    OneMoreDiffers(multiset(Programs(Exit(s, i, spawn).clients)), s.clients[i].program);
  }

  lemma RestartedKeepsPrograms(s: Lists, i: nat, spawn: Spawn)
    requires i < |s.clients| == |s.handles|
    ensures multiset(Programs(s.clients))
            == multiset(Programs(Exit(s, i, spawn).clients))
               + if Restarted(s, i, spawn) == [] then multiset{s.clients[i].program} else multiset{}
  {
    var (kept, more) := (Without(Programs(s.clients), i), Programs(Restarted(s, i, spawn)));
    WithoutRemovesOne(Programs(s.clients), i);
    ProgramsOfRestarted(s, i, spawn);
    ProgramsOfJoined(Without(s.clients, i), Restarted(s, i, spawn));
    assert Programs(Without(s.clients, i)) == kept;
    OneOrNone(kept, more, s.clients[i].program);
  }

  lemma OneOrNone<T>(kept: seq<T>, more: seq<T>, x: T)
    requires more == [] || more == [x]
    ensures multiset(kept) + multiset{x}
            == multiset(kept + more) + if more == [] then multiset{x} else multiset{}
  {
    assert kept + [] == kept;
  }

  lemma OneMoreDiffers<T>(m: multiset<T>, x: T)
    ensures m + multiset{x} != m
  {
    assert (m + multiset{x})[x] == m[x] + 1;
  }

  // ---------------------------------------------------------------- runs

  /** The wait names a handle of the list. */
  ghost predicate IsExit(s: Lists, wait: Wait) {
    wait.Signalled? && wait.index < |s.handles|
  }

  /** The lists after the exits up to the first wait that names no handle, how many
      exits that are, and the handles that restarts have added. */
  datatype Outcome = Outcome(lists: Lists, exits: nat, spawned: multiset<Handle>)

  ghost function Run(s: Lists, waits: seq<Wait>): Outcome
    requires Matching(s)
    decreases |waits|
  {
    if waits == [] || !IsExit(s, waits[0]) then Outcome(s, 0, multiset{})
    else
      var (i, spawn) := (waits[0].index, waits[0].spawn);
      ExitKeepsMatching(s, i, spawn);
      var rest := Run(Exit(s, i, spawn), waits[1..]);
      Outcome(rest.lists, rest.exits + 1, rest.spawned + multiset(Processes(Restarted(s, i, spawn))))
  }

  /** Over any sequence of exits, restarts and failed restarts the lists match, one
      handle is closed per exit, and every handle ever monitored, from the start or
      by a restart, is either still monitored or closed, never both and never
      twice. */
  lemma {:induction false} RunKeepsListsMatching(s: Lists, waits: seq<Wait>)
    requires Matching(s)
    ensures var o := Run(s, waits);
            && Matching(o.lists)
            && |o.lists.closed| == |s.closed| + o.exits
            && multiset(o.lists.closed) + multiset(o.lists.handles)
               == multiset(s.closed) + multiset(s.handles) + o.spawned
    decreases |waits|
  {
    if waits != [] && IsExit(s, waits[0]) {
      var (i, spawn) := (waits[0].index, waits[0].spawn);
      ExitKeepsMatching(s, i, spawn);
      ExitAndHandles(s, i, spawn);
      RunKeepsListsMatching(Exit(s, i, spawn), waits[1..]);
    }
  }

  /** A wait that names no handle ends the run: whatever would come after it changes
      nothing. */
  lemma {:induction false} RunEndsAtFailedWait(s: Lists, waits: seq<Wait>, failed: Wait, more: seq<Wait>)
    requires Matching(s) && Run(s, waits).exits == |waits| && !IsExit(Run(s, waits).lists, failed)
    ensures Run(s, waits + [failed] + more) == Run(s, waits)
    decreases |waits|
  {
    var all := waits + [failed] + more;
    if waits == [] {
      assert all[0] == failed;
    } else {
      assert all[0] == waits[0] && all[1..] == waits[1..] + [failed] + more;
      ExitKeepsMatching(s, waits[0].index, waits[0].spawn);
      RunEndsAtFailedWait(Exit(s, waits[0].index, waits[0].spawn), waits[1..], failed, more);
    }
  }

  /** One exit of a run: the client that exited, and how a restart of it would end. */
  datatype Exited = Exited(client: Client, spawn: Spawn)

  /** The exits of a run, in order. */
  ghost function ExitsOf(s: Lists, waits: seq<Wait>): seq<Exited>
    requires Matching(s)
    decreases |waits|
  {
    if waits == [] || !IsExit(s, waits[0]) then []
    else
      var (i, spawn) := (waits[0].index, waits[0].spawn);
      ExitKeepsMatching(s, i, spawn);
      [Exited(s.clients[i], spawn)] + ExitsOf(Exit(s, i, spawn), waits[1..])
  }

  ghost predicate ComesBack(e: Exited) {
    e.client.program.enableRestart && e.spawn.Started?
  }

  /** The programs of the exits after which the program stayed down: it was not to be
      restarted, or starting it failed. */
  ghost function Abandoned(exits: seq<Exited>): multiset<Program> {
    if exits == [] then multiset{}
    else Abandoned(exits[1..]) + if ComesBack(exits[0]) then multiset{} else multiset{exits[0].client.program}
  }

  /** Over any sequence of exits, restarts and failed restarts, every program is
      monitored as often as at the start, less the times it was abandoned. */
  lemma {:induction false} ProgramsAreAccountedFor(s: Lists, waits: seq<Wait>)
    requires Matching(s)
    ensures multiset(Programs(s.clients))
            == multiset(Programs(Run(s, waits).lists.clients)) + Abandoned(ExitsOf(s, waits))
    decreases |waits|
  {
    if waits != [] && IsExit(s, waits[0]) {
      var (i, spawn) := (waits[0].index, waits[0].spawn);
      ExitKeepsMatching(s, i, spawn);
      ExitAndPrograms(s, i, spawn);
      ProgramsAreAccountedFor(Exit(s, i, spawn), waits[1..]);
      AbandonedFirst(Exited(s.clients[i], spawn), ExitsOf(Exit(s, i, spawn), waits[1..]));
    }
  }

  lemma AbandonedFirst(e: Exited, rest: seq<Exited>)
    ensures Abandoned([e] + rest)
            == Abandoned(rest) + if ComesBack(e) then multiset{} else multiset{e.client.program}
  {
    assert ([e] + rest)[1..] == rest;
  }

  lemma {:induction false} NothingAbandonedIff(exits: seq<Exited>)
    ensures Abandoned(exits) == multiset{} <==> forall k :: 0 <= k < |exits| ==> ComesBack(exits[k])
  {
    if exits != [] {
      NothingAbandonedIff(exits[1..]);
      assert forall k :: 1 <= k < |exits| ==> exits[k] == exits[1..][k - 1];
      if ComesBack(exits[0]) {
        assert forall k :: 0 <= k < |exits[1..]| ==> exits[1..][k] == exits[k + 1];
      } else {
        assert exits[0].client.program in Abandoned(exits);
      }
    }
  }

  /** The same programs are monitored after a run exactly when every exited program was
      to be restarted and its new process started. */
  lemma RestartsPreservePrograms(s: Lists, waits: seq<Wait>)
    requires Matching(s)
    ensures multiset(Programs(Run(s, waits).lists.clients)) == multiset(Programs(s.clients))
            <==> forall k :: 0 <= k < |ExitsOf(s, waits)| ==> ComesBack(ExitsOf(s, waits)[k])
  {
    ProgramsAreAccountedFor(s, waits);
    NothingAbandonedIff(ExitsOf(s, waits));
    var (before, after) := (multiset(Programs(s.clients)), multiset(Programs(Run(s, waits).lists.clients)));
    assert before - after == Abandoned(ExitsOf(s, waits));
  }

  ghost predicate AllRestart(s: Lists, waits: seq<Wait>) {
    && (forall i :: 0 <= i < |s.clients| ==> s.clients[i].program.enableRestart)
    && forall i :: 0 <= i < |waits| && waits[i].Signalled? ==> waits[i].spawn.Started?
  }

  /** When every program restarts and every restart succeeds, none is abandoned. */
  lemma {:induction false} RestartsAbandonNothing(s: Lists, waits: seq<Wait>)
    requires Matching(s) && AllRestart(s, waits)
    ensures Abandoned(ExitsOf(s, waits)) == multiset{}
    decreases |waits|
  {
    if waits != [] && IsExit(s, waits[0]) {
      var (i, spawn) := (waits[0].index, waits[0].spawn);
      ExitKeepsMatching(s, i, spawn);
      assert forall k :: 0 <= k < |waits[1..]| ==> waits[1..][k] == waits[k + 1];
      RestartsAbandonNothing(Exit(s, i, spawn), waits[1..]);
      AbandonedFirst(Exited(s.clients[i], spawn), ExitsOf(Exit(s, i, spawn), waits[1..]));
    }
  }

  /** A client that is not to be restarted never comes back and never gets another
      handle: whoever is monitored without the flag was so from the start. */
  lemma {:induction false} WithoutFlagNoNewHandle(s: Lists, waits: seq<Wait>, c: Client)
    requires Matching(s) && !c.program.enableRestart
    ensures multiset(Run(s, waits).lists.clients)[c] <= multiset(s.clients)[c]
    decreases |waits|
  {
    if waits != [] && IsExit(s, waits[0]) {
      var (i, spawn) := (waits[0].index, waits[0].spawn);
      ExitKeepsMatching(s, i, spawn);
      ExitLeaves(s, i, spawn);
      WithoutRemovesOne(s.clients, i);
      var t := Exit(s, i, spawn);
      assert multiset(t.clients)[c] <= multiset(s.clients)[c] by {
        assert s.clients[i].program.enableRestart && spawn.Started? ==>
            t.clients == Without(s.clients, i) + [Client(s.clients[i].program, spawn.process)];
      }
      WithoutFlagNoNewHandle(t, waits[1..], c);
    }
  }

  /** The handles closed by a run are those of the exited clients, in exit order. */
  lemma {:induction false} ClosesWhatExited(s: Lists, waits: seq<Wait>)
    requires Matching(s)
    ensures var exits := ExitsOf(s, waits);
            && |exits| == Run(s, waits).exits
            && Run(s, waits).lists.closed
               == s.closed + seq(|exits|, k requires 0 <= k < |exits| => exits[k].client.process)
    decreases |waits|
  {
    if waits != [] && IsExit(s, waits[0]) {
      var (i, spawn) := (waits[0].index, waits[0].spawn);
      ExitKeepsMatching(s, i, spawn);
      ClosesWhatExited(Exit(s, i, spawn), waits[1..]);
    }
  }

  // ---------------------------------------------------------------- the class

  /** Appending and then erasing is erasing and then appending; the element to be
      erased may change in between. */
  lemma EraseAfterAppend<T>(s: seq<T>, i: nat, changed: T, more: T)
    requires i < |s|
    ensures Without(s[i := changed] + [more], i) == Without(s, i) + [more]
    ensures Without(s + [more], i) == Without(s, i) + [more]
  {
  }

  class CWatchDogClient {
    var clientList: seq<Client>
    var closedHandles: seq<Handle>  // what CloseHandle was called with, in order
    var runState: bool

    constructor (clients: seq<Client>)
      ensures clientList == clients && closedHandles == [] && runState
    {
      clientList, closedHandles, runState := clients, [], true;
    }

    /** Restarts the client at an index of the list. The element is overwritten with
        the new handle and then moved to the end, so that its text is gone but its
        handle can still be read. */
    method CreateNewChildProcess(i: nat, spawn: Spawn) returns (created: bool)
      requires i < |clientList|
      modifies `clientList
      ensures created <==> spawn.Started?
      ensures created ==>
                clientList == old(clientList)[i := Client(old(clientList)[i].program.(text := ""), spawn.process)]
                              + [Client(old(clientList)[i].program, spawn.process)]
      ensures !created ==> clientList == old(clientList)
    {
      match spawn
      case Failed => return false;
      case Started(process) =>
        var moved := clientList[i].(process := process);
        clientList := clientList[i := moved.(program := moved.program.(text := ""))] + [moved];
        return true;
    }

    /** The monitoring thread: collect the handles, then handle one exit per wait
        until a wait fails. */
    method ChildProcessEventSelectWorkerThread(waits: seq<Wait>) returns (processHandles: seq<Handle>)
      requires runState
      modifies this
      ensures Lists(clientList, processHandles, closedHandles)
              == Run(Lists(old(clientList), Processes(old(clientList)), old(closedHandles)), waits).lists
      ensures runState <==>
                Run(Lists(old(clientList), Processes(old(clientList)), old(closedHandles)), waits).exits == |waits|
    {
      processHandles := [];
      var clients := clientList;
      for i := 0 to |clients|
        invariant processHandles == Processes(clients)[..i]
      {
        processHandles := processHandles + [clients[i].process];
      }
      assert processHandles == Processes(clients);
      ghost var goal := Run(Lists(clientList, processHandles, closedHandles), waits);
      var at := 0;
      assert waits[0..] == waits;
      while runState && at < |waits|
        invariant at <= |waits|
        invariant Matching(Lists(clientList, processHandles, closedHandles))
        invariant runState ==>
                    var rest := Run(Lists(clientList, processHandles, closedHandles), waits[at..]);
                    goal.lists == rest.lists && goal.exits == at + rest.exits
        invariant !runState ==> goal.lists == Lists(clientList, processHandles, closedHandles) && goal.exits < |waits|
        decreases runState, |waits| - at
      {
        assert waits[at..][1..] == waits[at + 1..];
        if waits[at].Signalled? && waits[at].index < |processHandles| {
          processHandles := HandleExit(processHandles, waits[at].index, waits[at].spawn);
        } else {
          runState := false;
        }
        at := at + 1;
      }
      assert waits[|waits|..] == [];
    }

    /** The loop body for a signalled handle. */
    method HandleExit(processHandles: seq<Handle>, index: nat, spawn: Spawn) returns (handles: seq<Handle>)
      requires Matching(Lists(clientList, processHandles, closedHandles)) && index < |processHandles|
      modifies `clientList, `closedHandles
      ensures Matching(Lists(clientList, handles, closedHandles))
      ensures Lists(clientList, handles, closedHandles)
              == Exit(Lists(old(clientList), processHandles, old(closedHandles)), index, spawn)
    {
      ExitKeepsMatching(Lists(clientList, processHandles, closedHandles), index, spawn);
      handles := processHandles;
      if clientList[index].program.enableRestart {
        var created := CreateNewChildProcess(index, spawn);
        if created {
          handles := handles + [clientList[index].process];
          EraseAfterAppend(old(clientList), index, clientList[index], clientList[|clientList| - 1]);
          EraseAfterAppend(processHandles, index, processHandles[index], clientList[index].process);
        }
      }
      closedHandles := closedHandles + [handles[index]];
      clientList := Without(clientList, index);
      handles := Without(handles, index);
    }
  }
}
