/** Locks and queues of the shim (changes/runsc_service.go:100-125, 166-202, 302-322, 331-350,
    365-448, 499-546, 577-656, 685-693; changes/runsc_container.go:214-326, 413-422;
    changes/proc_init.go:194-316, 369-415, 460-480): any number of RPC threads and wait
    goroutines, the exit thread and the forwarder. */
module ShimLocks {
  import opened Wrappers

  /** s.mu, the mutex of a container, the mutex of a process. */
  datatype Lock = S | C(cid: string) | P(pid: string)

  /** What a thread does that matters to others. `Runtime` is a call of any length into runsc,
      the kernel or the publisher; `RunCheckpoint` the one that writes an image; `AwaitExit`
      the receive on a process's wait channel, `SignalExit` the closing of that channel,
      `Access` a use of what a mutex protects: the service's containers, a container's processes, a
      process's exit record. */
  datatype Act =
    | Acquire(lock: Lock)
    | Release(lock: Lock)
    | SendEvent
    | SendExit
    | AwaitExit(pid: string)
    | SignalExit(pid: string)
    | Access(lock: Lock)
    | Runtime
    | RunCheckpoint

  type Program = seq<Act>

  /** The discipline: s.mu may be followed by one container mutex, nothing else nests, mutexes
      are released in reverse order, what a mutex protects is used under it, and no send, no wait
      for an exit and no checkpoint happens under any of them. `held` lists the mutexes held, oldest first. */
  predicate Allowed(a: Act, held: seq<Lock>) {
    match a
    case Acquire(l) => held == [] || (held == [S] && l.C?)
    case Release(l) => held != [] && held[|held| - 1] == l
    case Runtime => true
    case SignalExit(pid) => held == [P(pid)]
    case Access(l) => l in held
    case _ => held == []
  }

  function HeldNext(a: Act, held: seq<Lock>): seq<Lock> {
    match a
    case Acquire(l) => held + [l]
    case Release(_) => if held == [] then [] else held[..|held| - 1]
    case _ => held
  }

  /** The whole program keeps the discipline and ends holding nothing. */
  predicate Safe(prog: Program, held: seq<Lock>)
    decreases |prog|
  {
    if prog == [] then held == [] else Allowed(prog[0], held) && Safe(prog[1..], HeldNext(prog[0], held))
  }

  // --- The programs of the shim ---------------------------------------------------------

  function Under(l: Lock, body: Program): Program {
    [Acquire(l), Access(l)] + body + [Release(l)]
  }

  /** A method that only looks at, or changes, what one mutex protects. */
  function Touch(l: Lock): Program {
    [Acquire(l), Access(l), Release(l)]
  }

  function Touches(ls: seq<Lock>): Program {
    if ls == [] then [] else Touch(ls[0]) + Touches(ls[1..])
  }

  function Containers(cids: seq<string>): seq<Lock> {
    seq(|cids|, i requires 0 <= i < |cids| => C(cids[i]))
  }

  function Repeat(a: Act, n: nat): Program {
    seq(n, _ => a)
  }

  /** Requests, with the container and process they are for; `calls` is how many runtime calls
      the process method makes while it holds its mutex. */
  datatype Request =
    | Create(cid: string, calls: nat)
    | Start(cid: string, pid: string, calls: nat)
    | Delete(cid: string, pid: string, isExec: bool, calls: nat)
    | Exec(cid: string, pid: string)
    | Status(cid: string, pid: string, calls: nat)
    | PauseOrResume(cid: string)
    | Kill(cid: string, pid: string, calls: nat)
    | Pids(cid: string, ps: nat)
    | Checkpoint(cid: string)
    | Wait(cid: string, pid: string)
    | Shutdown
    | Connect(cid: string)
    | ProcessCall(cid: string, pid: string, calls: nat)

  function RequestProgram(r: Request): Program {
    match r
    case Create(cid, calls) => Under(S, Repeat(Runtime, calls) + Touch(C(cid)) + [Runtime, Runtime])
    case Start(cid, pid, calls) => Touch(S) + [Runtime] + Touch(C(cid)) + Under(P(pid), Repeat(Runtime, calls))
    case Delete(cid, pid, isExec, calls) =>
      Touches([S, C(cid)]) + Under(P(pid), Repeat(Runtime, calls))
      + (if isExec then Touch(C(cid)) else Touch(S) + [Runtime])
      + Touches([P(pid), P(pid)])
    case Exec(cid, pid) => Touches([S, C(cid), P(pid), C(cid)]) + [SendEvent]
    case Status(cid, pid, calls) =>
      Touches([S, C(cid)]) + Under(P(pid), Repeat(Runtime, calls)) + Touches([P(pid), P(pid)])
    case PauseOrResume(_) => Touch(S) + [Runtime, SendEvent]
    case Kill(cid, pid, calls) => Touches([S, C(cid)]) + Under(P(pid), Repeat(Runtime, calls))
    case Pids(cid, ps) => Touches([S, C(cid)]) + [Runtime] + Touches(Containers(seq(ps, _ => cid)))
    case Checkpoint(_) => Touch(S) + [RunCheckpoint]
    case Wait(cid, pid) => Touches([S, C(cid)]) + [AwaitExit(pid)] + Touches([P(pid), P(pid)])
    case Shutdown => Touch(S)
    case Connect(cid) => Touches([S, C(cid)])
    case ProcessCall(cid, pid, calls) => Touches([S, C(cid)]) + Under(P(pid), Repeat(Runtime, calls))
  }

  /** The goroutine started with a process: wait for it, perhaps kill, report the exit. */
  function WaiterProgram(failed: bool): Program {
    (if failed then [Runtime, Runtime] else [Runtime]) + [SendExit]
  }

  /** KillAll for an init, then SetExited: the console shutdown and the close of the channel. */
  function SettleProgram(pid: string, isInit: bool): Program {
    (if isInit then Under(P(pid), [Runtime]) else []) + SetExitedProgram(pid)
  }

  function SetExitedProgram(pid: string): Program {
    [Acquire(P(pid)), Access(P(pid)), Runtime, SignalExit(pid), Release(P(pid))]
  }

  /** The OOM check of an init, and the event if it was one. */
  function Notice(isInit: bool, oom: bool): Program {
    if !isInit then [] else if oom then [Runtime, SendEvent] else [Runtime]
  }

  /** That, then ExitedAt and the exit event. */
  function ReportProgram(pid: string, isInit: bool, oom: bool): Program {
    Notice(isInit, oom) + (Touch(P(pid)) + [SendEvent])
  }

  /** checkProcesses for one exit: All on any containers under s.mu, then, for the process found
      if any, recording and reporting its exit. */
  function CheckProgram(cids: seq<string>, found: Option<string>, isInit: bool, oom: bool): Program {
    var search := Under(S, Touches(Containers(cids)));
    match found
    case None => search
    case Some(pid) => search + SettleProgram(pid, isInit) + ReportProgram(pid, isInit, oom)
  }

  /** A request may return early: what it still holds is released by its deferred unlocks. */
  function Unwind(held: seq<Lock>): Program
    decreases |held|
  {
    if held == [] then [] else [Release(held[|held| - 1])] + Unwind(held[..|held| - 1])
  }

  function HeldAfter(prog: Program, held: seq<Lock>): seq<Lock>
    decreases |prog|
  {
    if prog == [] then held else HeldAfter(prog[1..], HeldNext(prog[0], held))
  }

  function Cut(prog: Program, k: nat): Program
    requires k <= |prog|
  {
    prog[..k] + Unwind(HeldAfter(prog[..k], []))
  }

  lemma {:induction false} SafeConcat(a: Program, b: Program, held: seq<Lock>)
    requires Safe(a, held) && Safe(b, [])
    ensures Safe(a + b, held)
    decreases |a|
  {
    if a == [] {
      assert a + b == b;
    } else {
      assert (a + b)[1..] == a[1..] + b;
      SafeConcat(a[1..], b, HeldNext(a[0], held));
    }
  }

  /** What may happen under s.mu when a sub-call runs there. */
  predicate Inner(a: Act) {
    a.Runtime? || a.Access? || (a.Acquire? && a.lock.C?) || a.Release?
  }

  predicate OneContainer(held: seq<Lock>) {
    held == [] || (|held| == 1 && held[0].C?)
  }

  lemma InnerStep(a: Act, held: seq<Lock>)
    requires Inner(a) && OneContainer(held) && Allowed(a, held)
    ensures Allowed(a, [S] + held)
    ensures HeldNext(a, [S] + held) == [S] + HeldNext(a, held) && OneContainer(HeldNext(a, held))
  {
    match a
    case Acquire(l) => assert [S] + held == [S] && HeldNext(a, held) == [l];
    case Release(l) => assert HeldNext(a, held) == [] && ([S] + held)[..1] == [S];
    case Access(l) => assert l in [S] + held;
    case Runtime =>
  }

  /** A body that is safe on its own and takes at most container mutexes is safe under s.mu. */
  lemma {:induction false} UnderService(body: Program, held: seq<Lock>)
    requires Safe(body, held) && OneContainer(held) && forall a | a in body :: Inner(a)
    ensures Safe(body + [Release(S)], [S] + held)
    decreases |body|
  {
    if body == [] {
      assert body + [Release(S)] == [Release(S)] && [S] + held == [S];
      assert [Release(S)][1..] == [] && [S][..0] == [];
    } else {
      InnerStep(body[0], held);
      UnderService(body[1..], HeldNext(body[0], held));
      assert (body + [Release(S)])[1..] == body[1..] + [Release(S)];
    }
  }

  lemma RuntimeUnder(l: Lock, n: nat)
    ensures Safe(Under(l, Repeat(Runtime, n)), [])
  {
    RuntimeThenRelease(l, n);
    var body := Repeat(Runtime, n) + [Release(l)];
    EnterLock(l, body);
    assert Under(l, Repeat(Runtime, n)) == [Acquire(l), Access(l)] + body;
  }

  lemma SafeStep(a: Act, rest: Program, held: seq<Lock>)
    requires Allowed(a, held) && Safe(rest, HeldNext(a, held))
    ensures Safe([a] + rest, held)
  {
    assert ([a] + rest)[1..] == rest;
  }

  /** Taking a mutex and using what it protects leads into what is safe with it held. */
  lemma EnterLock(l: Lock, body: Program)
    requires Safe(body, [l])
    ensures Safe([Acquire(l), Access(l)] + body, [])
  {
    SafeStep(Access(l), body, [l]);
    assert [] + [l] == [l];
    SafeStep(Acquire(l), [Access(l)] + body, []);
    assert [Acquire(l), Access(l)] + body == [Acquire(l)] + ([Access(l)] + body);
  }

  lemma JustRelease(l: Lock)
    ensures Safe([Release(l)], [l])
  {
    assert [l][..0] == [] && [Release(l)] + [] == [Release(l)];
    SafeStep(Release(l), [], [l]);
  }

  lemma {:induction false} RuntimeThenRelease(l: Lock, n: nat)
    ensures Safe(Repeat(Runtime, n) + [Release(l)], [l])
  {
    var prog := Repeat(Runtime, n) + [Release(l)];
    if n == 0 {
      assert prog == [Release(l)] && prog[1..] == [] && [l][..0] == [];
    } else {
      assert prog[1..] == Repeat(Runtime, n - 1) + [Release(l)];
      RuntimeThenRelease(l, n - 1);
    }
  }

  lemma SafeTouch(l: Lock)
    ensures Safe(Touch(l), [])
  {
    JustRelease(l);
    EnterLock(l, [Release(l)]);
    assert Touch(l) == [Acquire(l), Access(l)] + [Release(l)];
  }

  lemma {:induction false} SafeTouches(ls: seq<Lock>)
    ensures Safe(Touches(ls), [])
  {
    if ls != [] {
      SafeTouches(ls[1..]);
      SafeTouch(ls[0]);
      SafeConcat(Touch(ls[0]), Touches(ls[1..]), []);
    }
  }

  lemma {:induction false} SafeBare(prog: Program)
    requires Bare(prog)
    ensures Safe(prog, [])
    decreases |prog|
  {
    if prog != [] {
      assert prog[0] in prog;
      SafeBare(prog[1..]);
    }
  }

  lemma {:induction false} TouchesContainers(cids: seq<string>)
    ensures forall a | a in Touches(Containers(cids)) :: Inner(a)
    decreases |cids|
  {
    if cids != [] {
      assert Containers(cids)[1..] == Containers(cids[1..]);
      TouchesContainers(cids[1..]);
    }
  }

  lemma SafeUnderService(body: Program)
    requires Safe(body, [])
    requires forall a | a in body :: Inner(a)
    ensures Safe(Under(S, body), [])
  {
    UnderService(body, []);
    assert [S] + [] == [S];
    EnterLock(S, body + [Release(S)]);
    assert Under(S, body) == [Acquire(S), Access(S)] + (body + [Release(S)]);
  }

  /** Every request follows the discipline. */
  lemma RequestsAreSafe(r: Request)
    ensures Safe(RequestProgram(r), [])
  {
    match r
    case Create(cid, calls) => CreateIsSafe(cid, calls);
    case Start(cid, pid, calls) => StartIsSafe(cid, pid, calls);
    case Delete(cid, pid, isExec, calls) => DeleteIsSafe(cid, pid, isExec, calls);
    case Exec(cid, pid) => TouchesThenBare([S, C(cid), P(pid), C(cid)], [SendEvent]);
    case Status(cid, pid, calls) =>
      LookupThenCall(cid, pid, calls);
      SafeTouches([P(pid), P(pid)]);
      SafeConcat(Touches([S, C(cid)]) + Under(P(pid), Repeat(Runtime, calls)), Touches([P(pid), P(pid)]), []);
    case PauseOrResume(_) => TouchThenBare(S, [Runtime, SendEvent]);
    case Kill(cid, pid, calls) => LookupThenCall(cid, pid, calls);
    case Pids(cid, ps) =>
      TouchesThenBare([S, C(cid)], [Runtime]);
      SafeTouches(Containers(seq(ps, _ => cid)));
      SafeConcat(Touches([S, C(cid)]) + [Runtime], Touches(Containers(seq(ps, _ => cid))), []);
    case Checkpoint(_) => TouchThenBare(S, [RunCheckpoint]);
    case Wait(cid, pid) =>
      TouchesThenBare([S, C(cid)], [AwaitExit(pid)]);
      SafeTouches([P(pid), P(pid)]);
      SafeConcat(Touches([S, C(cid)]) + [AwaitExit(pid)], Touches([P(pid), P(pid)]), []);
    case Shutdown => SafeTouch(S);
    case Connect(cid) => SafeTouches([S, C(cid)]);
    case ProcessCall(cid, pid, calls) => LookupThenCall(cid, pid, calls);
  }

  predicate Bare(prog: Program) {
    forall a | a in prog :: !a.Acquire? && !a.Release? && !a.SignalExit? && !a.Access?
  }

  lemma TouchesThenBare(ls: seq<Lock>, prog: Program)
    requires Bare(prog)
    ensures Safe(Touches(ls) + prog, [])
  {
    SafeTouches(ls);
    SafeBare(prog);
    SafeConcat(Touches(ls), prog, []);
  }

  lemma TouchThenBare(l: Lock, prog: Program)
    requires Bare(prog)
    ensures Safe(Touch(l) + prog, [])
  {
    SafeTouch(l);
    SafeBare(prog);
    SafeConcat(Touch(l), prog, []);
  }

  lemma StartIsSafe(cid: string, pid: string, calls: nat)
    ensures Safe(RequestProgram(Start(cid, pid, calls)), [])
  {
    TouchThenBare(S, [Runtime]);
    SafeTouch(C(cid));
    RuntimeUnder(P(pid), calls);
    SafeConcat(Touch(S) + [Runtime], Touch(C(cid)), []);
    SafeConcat(Touch(S) + [Runtime] + Touch(C(cid)), Under(P(pid), Repeat(Runtime, calls)), []);
  }

  lemma CreateIsSafe(cid: string, calls: nat)
    ensures Safe(RequestProgram(Create(cid, calls)), [])
  {
    SafeBare(Repeat(Runtime, calls));
    SafeTouch(C(cid));
    SafeBare([Runtime, Runtime]);
    SafeConcat(Repeat(Runtime, calls), Touch(C(cid)), []);
    SafeConcat(Repeat(Runtime, calls) + Touch(C(cid)), [Runtime, Runtime], []);
    SafeUnderService(Repeat(Runtime, calls) + Touch(C(cid)) + [Runtime, Runtime]);
  }

  lemma DeleteIsSafe(cid: string, pid: string, isExec: bool, calls: nat)
    ensures Safe(RequestProgram(Delete(cid, pid, isExec, calls)), [])
  {
    var a := Touches([S, C(cid)]) + Under(P(pid), Repeat(Runtime, calls));
    var b := if isExec then Touch(C(cid)) else Touch(S) + [Runtime];
    LookupThenCall(cid, pid, calls);
    SafeTouch(C(cid));
    TouchThenBare(S, [Runtime]);
    SafeTouches([P(pid), P(pid)]);
    SafeConcat(a, b, []);
    SafeConcat(a + b, Touches([P(pid), P(pid)]), []);
  }

  lemma LookupThenCall(cid: string, pid: string, calls: nat)
    ensures Safe(Touches([S, C(cid)]) + Under(P(pid), Repeat(Runtime, calls)), [])
  {
    SafeTouches([S, C(cid)]);
    RuntimeUnder(P(pid), calls);
    SafeConcat(Touches([S, C(cid)]), Under(P(pid), Repeat(Runtime, calls)), []);
  }

  /** Bare of waiting for exits, sending them, and checkpoints. */
  predicate ExitThreadActs(prog: Program) {
    forall a | a in prog :: !a.AwaitExit? && !a.SendExit? && !a.RunCheckpoint?
  }

  lemma {:induction false} TouchesAreExitThreadActs(ls: seq<Lock>)
    ensures ExitThreadActs(Touches(ls))
  {
    if ls != [] { TouchesAreExitThreadActs(ls[1..]); }
  }

  lemma ConcatActs(a: Program, b: Program)
    requires ExitThreadActs(a) && ExitThreadActs(b)
    ensures ExitThreadActs(a + b)
  {
  }

  lemma ReportIsSafe(pid: string, isInit: bool, oom: bool)
    ensures Safe(ReportProgram(pid, isInit, oom), [])
    ensures ExitThreadActs(ReportProgram(pid, isInit, oom))
  {
    TouchThenBare(P(pid), [SendEvent]);
    SafeBare(Notice(isInit, oom));
    SafeConcat(Notice(isInit, oom), Touch(P(pid)) + [SendEvent], []);
    ConcatActs(Touch(P(pid)), [SendEvent]);
    ConcatActs(Notice(isInit, oom), Touch(P(pid)) + [SendEvent]);
  }

  lemma SettleIsSafe(pid: string, isInit: bool)
    ensures Safe(SettleProgram(pid, isInit), [])
    ensures ExitThreadActs(SettleProgram(pid, isInit))
  {
    assert Repeat(Runtime, 1) == [Runtime];
    RuntimeUnder(P(pid), 1);
    SafeBare([]);
    SetExitedIsSafe(pid);
    SafeConcat(if isInit then Under(P(pid), [Runtime]) else [], SetExitedProgram(pid), []);
  }

  lemma SetExitedIsSafe(pid: string)
    ensures Safe(SetExitedProgram(pid), [])
  {
    var l := P(pid);
    JustRelease(l);
    SafeStep(SignalExit(pid), [Release(l)], [l]);
    SafeStep(Runtime, [SignalExit(pid)] + [Release(l)], [l]);
    EnterLock(l, [Runtime] + ([SignalExit(pid)] + [Release(l)]));
    assert SetExitedProgram(pid) == [Acquire(l), Access(l)] + ([Runtime] + ([SignalExit(pid)] + [Release(l)]));
  }

  lemma SearchIsSafe(cids: seq<string>)
    ensures Safe(Under(S, Touches(Containers(cids))), [])
    ensures ExitThreadActs(Under(S, Touches(Containers(cids))))
  {
    SafeTouches(Containers(cids));
    TouchesContainers(cids);
    TouchesAreExitThreadActs(Containers(cids));
    SafeUnderService(Touches(Containers(cids)));
  }

  lemma CheckSignals(cids: seq<string>, pid: string, isInit: bool, oom: bool)
    ensures SignalExit(pid) in CheckProgram(cids, Some(pid), isInit, oom)
  {
    assert SetExitedProgram(pid)[3] == SignalExit(pid);
    assert SignalExit(pid) in SettleProgram(pid, isInit);
  }

  /** So does the handling of an exit, which moreover neither waits for an exit, nor sends one,
      nor runs a checkpoint. */
  lemma CheckIsSafe(cids: seq<string>, found: Option<string>, isInit: bool, oom: bool)
    ensures Safe(CheckProgram(cids, found, isInit, oom), [])
    ensures ExitThreadActs(CheckProgram(cids, found, isInit, oom))
  {
    var search := Under(S, Touches(Containers(cids)));
    SearchIsSafe(cids);
    if found.Some? {
      SettleIsSafe(found.value, isInit);
      ReportIsSafe(found.value, isInit, oom);
      SafeConcat(search, SettleProgram(found.value, isInit), []);
      SafeConcat(search + SettleProgram(found.value, isInit), ReportProgram(found.value, isInit, oom), []);
    }
  }

  lemma WaiterIsSafe(failed: bool)
    ensures Safe(WaiterProgram(failed), [])
  {
    SafeBare(WaiterProgram(failed));
  }

  /** Returning early from anywhere keeps the discipline. */
  lemma {:induction false} CutIsSafe(prog: Program, held: seq<Lock>, k: nat)
    requires Safe(prog, held) && k <= |prog|
    ensures Safe(prog[..k] + Unwind(HeldAfter(prog[..k], held)), held)
    decreases k
  {
    if k == 0 {
      assert prog[..0] + Unwind(held) == Unwind(held);
      UnwindIsSafe(held);
    } else {
      var next := HeldNext(prog[0], held);
      var rest := prog[1..][..k - 1];
      CutIsSafe(prog[1..], next, k - 1);
      CutFront(prog, k);
      SafeStep(prog[0], rest + Unwind(HeldAfter(rest, next)), held);
      Regroup([prog[0]], rest, Unwind(HeldAfter(rest, next)));
    }
  }

  lemma CutFront(prog: Program, k: nat)
    requires 0 < k <= |prog|
    ensures prog[..k] == [prog[0]] + prog[1..][..k - 1] && prog[..k][1..] == prog[1..][..k - 1]
  {
  }

  lemma {:induction false} UnwindIsSafe(held: seq<Lock>)
    ensures Safe(Unwind(held), held)
    decreases |held|
  {
    if held != [] {
      UnwindIsSafe(held[..|held| - 1]);
      assert Unwind(held)[1..] == Unwind(held[..|held| - 1]);
    }
  }

  // --- Wait ---------------------------------------------------------------------------------

  /** The exit record of the process is used only after its exit has been awaited. */
  predicate Guarded(prog: Program, pid: string) {
    forall j | 0 <= j < |prog| && prog[j] == Access(P(pid)) :: AwaitExit(pid) in prog[..j]
  }

  /** A Wait awaits the exit and then reads the record twice, its status and its time. */
  lemma WaitShape(cid: string, pid: string)
    ensures RequestProgram(Wait(cid, pid)) ==
            (Touch(S) + Touch(C(cid))) + ([AwaitExit(pid)] + (Touch(P(pid)) + Touch(P(pid))))
  {
    TouchesTwo(S, C(cid));
    TouchesTwo(P(pid), P(pid));
    Regroup(Touch(S) + Touch(C(cid)), [AwaitExit(pid)], Touch(P(pid)) + Touch(P(pid)));
  }

  lemma TouchesTwo(a: Lock, b: Lock)
    ensures Touches([a, b]) == Touch(a) + Touch(b)
  {
    assert [a, b][1..] == [b] && [b][1..] == [];
    assert Touches([b]) == Touch(b) + Touches([]) == Touch(b);
  }

  lemma Regroup(a: Program, b: Program, c: Program)
    ensures (a + b) + c == a + (b + c)
  {
  }

  lemma {:induction false} UnwindReleases(held: seq<Lock>)
    ensures forall a | a in Unwind(held) :: a.Release?
    decreases |held|
  {
    if held != [] { UnwindReleases(held[..|held| - 1]); }
  }

  lemma GuardedPrefix(prog: Program, tail: Program, k: nat, pid: string)
    requires Guarded(prog, pid) && k <= |prog| && forall a | a in tail :: a.Release?
    ensures Guarded(prog[..k] + tail, pid)
  {
    var cut := prog[..k] + tail;
    assert forall j | k <= j < |cut| :: cut[j] in tail;
    forall j | 0 <= j < |cut| && cut[j] == Access(P(pid)) ensures AwaitExit(pid) in cut[..j] {
      assert j < k && cut[..j] == prog[..j];
    }
  }

  lemma WaitIsGuarded(cid: string, pid: string, k: nat)
    requires k <= |RequestProgram(Wait(cid, pid))|
    ensures Guarded(Cut(RequestProgram(Wait(cid, pid)), k), pid)
  {
    var prog := RequestProgram(Wait(cid, pid));
    WaitShape(cid, pid);
    forall j | 0 <= j < |prog| && prog[j] == Access(P(pid)) ensures AwaitExit(pid) in prog[..j] {
      assert prog[6] == AwaitExit(pid) && j > 6;
      assert prog[..j][6] == prog[6];
    }
    UnwindReleases(HeldAfter(prog[..k], []));
    GuardedPrefix(prog, Unwind(HeldAfter(prog[..k], [])), k, pid);
  }
}
