/** No deadlock among the locks and queues of the shim: the threads of ShimLocks, interleaved
    in every way (changes/runsc_service.go:129-164, 596-600, 654-656, 685-693;
    changes/proc_init.go:254-287). */
module ShimDeadlock {
  import opened Wrappers
  import opened ShimLocks

  datatype Role = Worker | ExitLoop | Forwarder

  /** What is left to do before the thread ends or, for the two loops, receives again. */
  datatype Thread = Thread(role: Role, prog: Program, held: seq<Lock>)

  datatype State = State(threads: map<nat, Thread>, exits: nat, events: nat, exited: set<string>)

  /** Buffer sizes of the two channels. */
  datatype Caps = Caps(exits: nat, events: nat)

  const EXIT_THREAD: nat := 0
  const FORWARD_THREAD: nat := 1

  function InitState(): State {
    State(map[EXIT_THREAD := Thread(ExitLoop, [], []), FORWARD_THREAD := Thread(Forwarder, [], [])], 0, 0, {})
  }

  /** Nobody holds the mutex. */
  predicate Free(s: State, l: Lock) {
    forall t | t in s.threads :: l !in s.threads[t].held
  }

  /** The thread can take its next step. */
  predicate Ready(s: State, caps: Caps, t: nat) {
    && t in s.threads
    && var th := s.threads[t];
       if th.prog == [] then (th.role.ExitLoop? && s.exits > 0) || (th.role.Forwarder? && s.events > 0)
       else match th.prog[0]
         case Acquire(l) => Free(s, l)
         case SendEvent => s.events < caps.events
         case SendExit => s.exits < caps.exits
         case AwaitExit(pid) => pid in s.exited
         case _ => true
  }

  datatype Action =
    | Rpc(t: nat, request: Request, returnsAt: nat)
    | Waiter(t: nat, failed: bool)
    | Advance(t: nat, cids: seq<string>, found: Option<string>, isInit: bool, oom: bool)

  /** The effect of the act at the head of a thread's program on the thread itself. */
  function AfterAct(th: Thread): Thread
    requires th.prog != []
  {
    Thread(th.role, th.prog[1..], HeldNext(th.prog[0], th.held))
  }

  function Next(s: State, caps: Caps, a: Action): State {
    match a
    case Rpc(t, request, k) =>
      if t in s.threads || k > |RequestProgram(request)| then s
      else s.(threads := s.threads[t := Thread(Worker, Cut(RequestProgram(request), k), [])])
    case Waiter(t, failed) =>
      if t in s.threads then s else s.(threads := s.threads[t := Thread(Worker, WaiterProgram(failed), [])])
    case Advance(t, cids, found, isInit, oom) =>
      if !Ready(s, caps, t) then s
      else
        var th := s.threads[t];
        if th.prog == [] && th.role.ExitLoop? then
          s.(threads := s.threads[t := Thread(ExitLoop, CheckProgram(cids, found, isInit, oom), [])],
             exits := s.exits - 1)
        else if th.prog == [] then
          s.(threads := s.threads[t := Thread(Forwarder, [Runtime], [])], events := s.events - 1)
        else
          s.(threads := s.threads[t := AfterAct(th)],
             events := if th.prog[0].SendEvent? then s.events + 1 else s.events,
             exits := if th.prog[0].SendExit? then s.exits + 1 else s.exits,
             exited := if th.prog[0].SignalExit? then s.exited + {th.prog[0].pid} else s.exited)
  }

  function After(s: State, caps: Caps, actions: seq<Action>): State
    decreases |actions|
  {
    if actions == [] then s else After(Next(s, caps, actions[0]), caps, actions[1..])
  }

  predicate ThreadOk(t: nat, th: Thread) {
    && Safe(th.prog, th.held)
    && (th.role == if t == EXIT_THREAD then ExitLoop else if t == FORWARD_THREAD then Forwarder else Worker)
    && (th.role.ExitLoop? ==> ExitThreadActs(th.prog))
    && (th.role.Forwarder? ==> th.prog == [] || th.prog == [Runtime])
  }

  predicate Inv(s: State, caps: Caps) {
    && EXIT_THREAD in s.threads && FORWARD_THREAD in s.threads
    && s.exits <= caps.exits && s.events <= caps.events
    && (forall t | t in s.threads :: ThreadOk(t, s.threads[t]))
    && (forall t, u, l | t in s.threads && u in s.threads && l in s.threads[t].held && l in s.threads[u].held :: t == u)
  }

  lemma ActKeepsThread(t: nat, th: Thread)
    requires ThreadOk(t, th) && th.prog != []
    ensures ThreadOk(t, AfterAct(th))
  {
    assert forall a | a in th.prog[1..] :: a in th.prog;
  }

  /** A program started by the shim is safe. */
  lemma SpawnedIsSafe(request: Request, k: nat)
    requires k <= |RequestProgram(request)|
    ensures Safe(Cut(RequestProgram(request), k), [])
  {
    RequestsAreSafe(request);
    CutIsSafe(RequestProgram(request), [], k);
  }

  /** Replacing one thread keeps the threads well-formed and the mutexes exclusive. */
  lemma ReplaceKeepsInv(s: State, caps: Caps, t: nat, th: Thread, exits: nat, events: nat, exited: set<string>)
    requires Inv(s, caps) && ThreadOk(t, th) && exits <= caps.exits && events <= caps.events
    requires forall l | l in th.held :: (t in s.threads && l in s.threads[t].held) || Free(s, l)
    ensures Inv(State(s.threads[t := th], exits, events, exited), caps)
  {
  }

  lemma NextKeepsInv(s: State, caps: Caps, a: Action)
    requires Inv(s, caps)
    ensures Inv(Next(s, caps, a), caps)
  {
    match a
    case Rpc(t, request, k) =>
      if t !in s.threads && k <= |RequestProgram(request)| {
        SpawnedIsSafe(request, k);
        ReplaceKeepsInv(s, caps, t, Thread(Worker, Cut(RequestProgram(request), k), []), s.exits, s.events, s.exited);
      }
    case Waiter(t, failed) =>
      if t !in s.threads {
        WaiterIsSafe(failed);
        ReplaceKeepsInv(s, caps, t, Thread(Worker, WaiterProgram(failed), []), s.exits, s.events, s.exited);
      }
    case Advance(t, cids, found, isInit, oom) =>
      if Ready(s, caps, t) { AdvanceKeepsInv(s, caps, t, cids, found, isInit, oom); }
  }

  lemma AdvanceKeepsInv(s: State, caps: Caps, t: nat, cids: seq<string>, found: Option<string>, isInit: bool, oom: bool)
    requires Inv(s, caps) && Ready(s, caps, t)
    ensures Inv(Next(s, caps, Advance(t, cids, found, isInit, oom)), caps)
  {
    var th := s.threads[t];
    assert ThreadOk(t, th);
    var d := Next(s, caps, Advance(t, cids, found, isInit, oom));
    if th.prog == [] {
      CheckIsSafe(cids, found, isInit, oom);
      SafeBare([Runtime]);
    } else {
      ActKeepsThread(t, th);
    }
    ReplaceKeepsInv(s, caps, t, d.threads[t], d.exits, d.events, d.exited);
  }

  lemma {:induction false} ReachableKeepsInv(s: State, caps: Caps, actions: seq<Action>)
    requires Inv(s, caps)
    ensures Inv(After(s, caps, actions), caps)
    decreases |actions|
  {
    if actions != [] {
      NextKeepsInv(s, caps, actions[0]);
      ReachableKeepsInv(Next(s, caps, actions[0]), caps, actions[1..]);
    }
  }

  /** Every state the shim can reach, whatever the interleaving and the number of threads. */
  lemma ReachableInv(caps: Caps, actions: seq<Action>)
    ensures Inv(After(InitState(), caps, actions), caps)
  {
    ReachableKeepsInv(InitState(), caps, actions);
  }

  // --- The waits-for relation -----------------------------------------------------------

  predicate Acquiring(s: State, t: nat) {
    t in s.threads && s.threads[t].prog != [] && s.threads[t].prog[0].Acquire?
  }

  /** `t` needs a mutex that `u` holds. */
  predicate WaitsFor(s: State, t: nat, u: nat) {
    Acquiring(s, t) && u in s.threads && s.threads[t].prog[0].lock in s.threads[u].held
  }

  /** A thread that waits while holding a mutex holds s.mu and wants a container mutex, and the
      holder of that one waits for no mutex. */
  lemma HolderOfInnerDoesNotWait(s: State, caps: Caps, t: nat, u: nat)
    requires Inv(s, caps) && WaitsFor(s, t, u) && s.threads[t].held != []
    ensures !Acquiring(s, u)
    ensures s.threads[t].held == [S] && s.threads[t].prog[0].lock.C?
  {
    assert ThreadOk(t, s.threads[t]) && ThreadOk(u, s.threads[u]);
  }

  /** Threads along a path each wait for the next. */
  predicate WaitPath(s: State, path: seq<nat>) {
    forall i | 0 <= i < |path| - 1 :: WaitsFor(s, path[i], path[i + 1])
  }

  /** In every reachable state waiting is at most two deep. */
  lemma WaitPathsAreShort(s: State, caps: Caps, path: seq<nat>)
    requires Inv(s, caps) && WaitPath(s, path)
    ensures |path| <= 3
  {
    if |path| > 3 {
      assert WaitsFor(s, path[0], path[1]) && WaitsFor(s, path[1], path[2]) && WaitsFor(s, path[2], path[3]);
      HolderOfInnerDoesNotWait(s, caps, path[1], path[2]);
    }
  }

  /** And never circular: no thread waits, directly or through others, for itself. */
  lemma WaitsForIsAcyclic(s: State, caps: Caps, path: seq<nat>)
    requires Inv(s, caps) && WaitPath(s, path) && |path| > 1
    ensures path[0] != path[|path| - 1]
  {
    var n := |path| - 1;
    assert WaitsFor(s, path[0], path[1]) && WaitsFor(s, path[n - 1], path[n]);
    assert n == 1 || WaitsFor(s, path[1], path[2]);
    if path[0] == path[n] {
      HolderOfInnerDoesNotWait(s, caps, path[0], path[1]);
    }
  }

  /** No mutex is held across a send, a wait for an exit, or a checkpoint. */
  lemma BlockingHoldsNothing(s: State, caps: Caps, t: nat)
    requires Inv(s, caps) && t in s.threads && s.threads[t].prog != []
    requires var a := s.threads[t].prog[0]; a.SendEvent? || a.SendExit? || a.AwaitExit? || a.RunCheckpoint?
    ensures s.threads[t].held == []
    ensures forall u :: !WaitsFor(s, u, t)
  {
    assert ThreadOk(t, s.threads[t]);
  }

  /** Nothing that a mutex protects is used by two threads at once. */
  lemma NoRace(s: State, caps: Caps, t: nat, u: nat, l: Lock)
    requires Inv(s, caps) && t in s.threads && u in s.threads
    requires s.threads[t].prog != [] && s.threads[t].prog[0] == Access(l)
    requires s.threads[u].prog != [] && s.threads[u].prog[0] == Access(l)
    ensures t == u
  {
    assert ThreadOk(t, s.threads[t]) && ThreadOk(u, s.threads[u]);
  }

  // --- Progress -------------------------------------------------------------------------

  /** In the middle of a checkpoint, or at the wait for an exit. */
  predicate Parked(s: State, t: nat) {
    && t in s.threads && s.threads[t].prog != []
    && (s.threads[t].prog[0].RunCheckpoint? || s.threads[t].prog[0].AwaitExit?)
  }

  /** The end of a chain of waiting: at most two threads further on. */
  ghost predicate Behind(s: State, t: nat, u: nat) {
    u == t || WaitsFor(s, t, u) || exists v :: WaitsFor(s, t, v) && WaitsFor(s, v, u)
  }

  lemma HolderExists(s: State, t: nat) returns (u: nat)
    requires Acquiring(s, t) && !Free(s, s.threads[t].prog[0].lock)
    ensures WaitsFor(s, t, u)
  {
    u :| u in s.threads && s.threads[t].prog[0].lock in s.threads[u].held;
  }

  /** A thread that holds a mutex and is not acquiring another can step. */
  lemma HolderSteps(s: State, caps: Caps, u: nat)
    requires Inv(s, caps) && u in s.threads && s.threads[u].held != [] && !Acquiring(s, u)
    ensures Ready(s, caps, u) && !Parked(s, u)
  {
    assert ThreadOk(u, s.threads[u]);
  }

  /** Whoever needs a mutex is behind a thread that can step and is not parked. */
  lemma LockWaitersAreServed(s: State, caps: Caps, t: nat) returns (u: nat)
    requires Inv(s, caps) && Acquiring(s, t)
    ensures Behind(s, t, u) && Ready(s, caps, u) && !Parked(s, u)
  {
    if Free(s, s.threads[t].prog[0].lock) {
      u := t;
    } else {
      u := HolderExists(s, t);
      if Acquiring(s, u) {
        if !Free(s, s.threads[u].prog[0].lock) {
          var v := u;
          u := HolderExists(s, v);
          HolderOfInnerDoesNotWait(s, caps, v, u);
          HolderSteps(s, caps, u);
        }
      } else {
        HolderSteps(s, caps, u);
      }
    }
  }

  /** Exit handling is never stuck: while the exit thread has an exit to take or is in the
      middle of one, it can step itself, or a thread it is behind, or the forwarder, can; and
      that thread is never in a checkpoint, however long, nor waiting for an exit. */
  lemma ExitHandlingProgresses(s: State, caps: Caps) returns (u: nat)
    requires Inv(s, caps) && caps.events > 0
    requires s.exits > 0 || s.threads[EXIT_THREAD].prog != []
    ensures Behind(s, EXIT_THREAD, u) || u == FORWARD_THREAD
    ensures Ready(s, caps, u) && !Parked(s, u)
  {
    var th := s.threads[EXIT_THREAD];
    assert ThreadOk(EXIT_THREAD, th) && ThreadOk(FORWARD_THREAD, s.threads[FORWARD_THREAD]);
    if th.prog != [] { assert th.prog[0] in th.prog; }
    if Acquiring(s, EXIT_THREAD) {
      u := LockWaitersAreServed(s, caps, EXIT_THREAD);
    } else if Ready(s, caps, EXIT_THREAD) {
      u := EXIT_THREAD;
    } else {
      u := FORWARD_THREAD;
    }
  }

  /** No deadlock: while any thread at all is blocked on a mutex or on a full queue, some thread
      can step that is neither in a checkpoint nor waiting for an exit. */
  lemma NoDeadlock(s: State, caps: Caps, t: nat) returns (u: nat)
    requires Inv(s, caps) && caps.events > 0 && caps.exits > 0
    requires t in s.threads && s.threads[t].prog != [] && !Parked(s, t)
    ensures Ready(s, caps, u) && !Parked(s, u)
  {
    assert ThreadOk(FORWARD_THREAD, s.threads[FORWARD_THREAD]);
    if Acquiring(s, t) {
      u := LockWaitersAreServed(s, caps, t);
    } else if Ready(s, caps, t) {
      u := t;
    } else if s.threads[t].prog[0].SendEvent? {
      u := FORWARD_THREAD;
    } else {
      u := ExitHandlingProgresses(s, caps);
    }
  }

  // --- Waiting for an exit ----------------------------------------------------------------

  /** The exit thread has still to close the wait channel of `pid`. */
  predicate WillSignal(s: State, pid: string) {
    EXIT_THREAD in s.threads && SignalExit(pid) in s.threads[EXIT_THREAD].prog
  }

  /** Taking an exit whose process is found puts the exit thread under that obligation. */
  lemma TakenExitWillSignal(s: State, caps: Caps, cids: seq<string>, pid: string, isInit: bool, oom: bool)
    requires Inv(s, caps) && s.exits > 0 && s.threads[EXIT_THREAD].prog == []
    ensures WillSignal(Next(s, caps, Advance(EXIT_THREAD, cids, Some(pid), isInit, oom)), pid)
  {
    assert ThreadOk(EXIT_THREAD, s.threads[EXIT_THREAD]);
    CheckSignals(cids, pid, isInit, oom);
  }

  lemma NextKeepsSignal(s: State, caps: Caps, pid: string, a: Action)
    requires Inv(s, caps) && (pid in s.exited || WillSignal(s, pid))
    ensures pid in Next(s, caps, a).exited || WillSignal(Next(s, caps, a), pid)
  {
    if a.Advance? && a.t == EXIT_THREAD && Ready(s, caps, EXIT_THREAD) && pid !in s.exited {
      var prog := s.threads[EXIT_THREAD].prog;
      assert prog == [prog[0]] + prog[1..];
    }
  }

  predicate Awaits(s: State, t: nat, pid: string) {
    t in s.threads && s.threads[t].prog != [] && s.threads[t].prog[0] == AwaitExit(pid)
  }

  /** Handling an exit releases everybody who waits for it: in every interleaving, by the time
      the exit thread takes another exit, each Wait for this process can go on, for good. */
  lemma {:induction false} HandledExitReleasesWaiters(s: State, caps: Caps, pid: string, actions: seq<Action>, t: nat)
    requires Inv(s, caps) && (pid in s.exited || WillSignal(s, pid))
    ensures var after := After(s, caps, actions);
            && Inv(after, caps) && (pid in after.exited || WillSignal(after, pid))
            && (after.threads[EXIT_THREAD].prog == [] && Awaits(after, t, pid) ==> Ready(after, caps, t))
    decreases |actions|
  {
    if actions != [] {
      NextKeepsInv(s, caps, actions[0]);
      NextKeepsSignal(s, caps, pid, actions[0]);
      HandledExitReleasesWaiters(Next(s, caps, actions[0]), caps, pid, actions[1..], t);
    }
  }

  /** The thread reads the record of `pid` only once the exit has been signalled. */
  predicate Answering(s: State, t: nat, pid: string) {
    t in s.threads && s.threads[t].role.Worker? && (pid in s.exited || Guarded(s.threads[t].prog, pid))
  }

  lemma NextStaysAnswering(s: State, caps: Caps, t: nat, pid: string, a: Action)
    requires Answering(s, t, pid)
    ensures Answering(Next(s, caps, a), t, pid)
  {
    var u := Next(s, caps, a);
    if a.Advance? && a.t == t && Ready(s, caps, t) && pid !in u.exited {
      var prog := s.threads[t].prog;
      if prog != [] { GuardedTail(prog, pid); }
    }
  }

  lemma GuardedTail(prog: Program, pid: string)
    requires prog != [] && Guarded(prog, pid) && prog[0] != AwaitExit(pid)
    ensures Guarded(prog[1..], pid)
  {
    var rest := prog[1..];
    forall j | 0 <= j < |rest| && rest[j] == Access(P(pid)) ensures AwaitExit(pid) in rest[..j] {
      assert prog[j + 1] == rest[j];
      assert prog[..j + 1] == [prog[0]] + rest[..j];
    }
  }

  /** A Wait answers only after the exit: in every interleaving from its start, whenever it is about
      to read the exit record the exit has been signalled. */
  lemma {:induction false} WaitReadsAfterExit(s: State, caps: Caps, t: nat, pid: string, actions: seq<Action>)
    requires Answering(s, t, pid)
    ensures var after := After(s, caps, actions);
            && Answering(after, t, pid)
            && (after.threads[t].prog != [] && after.threads[t].prog[0] == Access(P(pid)) ==> pid in after.exited)
    decreases |actions|
  {
    if actions != [] {
      NextStaysAnswering(s, caps, t, pid, actions[0]);
      WaitReadsAfterExit(Next(s, caps, actions[0]), caps, t, pid, actions[1..]);
    } else if s.threads[t].prog != [] {
      assert s.threads[t].prog[..0] == [];
    }
  }

  lemma WaitStartsAnswering(s: State, caps: Caps, t: nat, cid: string, pid: string, k: nat)
    requires t !in s.threads && k <= |RequestProgram(Wait(cid, pid))|
    ensures Answering(Next(s, caps, Rpc(t, Wait(cid, pid), k)), t, pid)
  {
    WaitIsGuarded(cid, pid, k);
  }

  // --- The queues ---------------------------------------------------------------------------

  /** Steps of a schedule in which a thread that can step is at the given act. */
  function Sends(s: State, caps: Caps, actions: seq<Action>, act: Act): nat
    decreases |actions|
  {
    if actions == [] then 0
    else
      var a := actions[0];
      (if a.Advance? && Ready(s, caps, a.t) && s.threads[a.t].prog != [] && s.threads[a.t].prog[0] == act then 1 else 0)
      + Sends(Next(s, caps, a), caps, actions[1..], act)
  }

  /** Steps in which a loop that is done with the last element takes another. */
  function Receives(s: State, caps: Caps, actions: seq<Action>, t: nat): nat
    decreases |actions|
  {
    if actions == [] then 0
    else
      (if actions[0].Advance? && actions[0].t == t && Ready(s, caps, t) && s.threads[t].prog == [] then 1 else 0)
      + Receives(Next(s, caps, actions[0]), caps, actions[1..], t)
  }

  /** The queues lose nothing: what is in them is what was sent and not yet received. */
  lemma {:induction false} QueuesBalance(s: State, caps: Caps, actions: seq<Action>)
    requires Inv(s, caps)
    ensures var t := After(s, caps, actions);
            && t.events + Receives(s, caps, actions, FORWARD_THREAD) == s.events + Sends(s, caps, actions, SendEvent)
            && t.exits + Receives(s, caps, actions, EXIT_THREAD) == s.exits + Sends(s, caps, actions, SendExit)
    decreases |actions|
  {
    if actions != [] {
      var a := actions[0];
      NextKeepsInv(s, caps, a);
      NextBalances(s, caps, a);
      OneStep(s, caps, actions);
      QueuesBalance(Next(s, caps, a), caps, actions[1..]);
    }
  }

  lemma OneStep(s: State, caps: Caps, actions: seq<Action>)
    requires actions != []
    ensures forall act :: Sends(s, caps, actions, act) ==
              Sends(s, caps, actions[..1], act) + Sends(Next(s, caps, actions[0]), caps, actions[1..], act)
    ensures forall t: nat :: Receives(s, caps, actions, t) ==
              Receives(s, caps, actions[..1], t) + Receives(Next(s, caps, actions[0]), caps, actions[1..], t)
  {
    assert actions[..1] == [actions[0]] && [actions[0]][1..] == [];
  }

  lemma NextBalances(s: State, caps: Caps, a: Action)
    requires Inv(s, caps)
    ensures var t := Next(s, caps, a);
            && t.events + Receives(s, caps, [a], FORWARD_THREAD) == s.events + Sends(s, caps, [a], SendEvent)
            && t.exits + Receives(s, caps, [a], EXIT_THREAD) == s.exits + Sends(s, caps, [a], SendExit)
  {
    assert [a][1..] == [];
    if a.Advance? && a.t in s.threads { assert ThreadOk(a.t, s.threads[a.t]); }
  }
}
