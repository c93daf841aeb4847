/** Exit handling under every interleaving (changes/runsc_service.go:73-87, 302-328, 365-406,
    577-656, 685-693; changes/proc_init.go:180-206, 290-308): the exit thread, the forwarder, RPC
    threads that send events or read an exit record, and arbitrary changes to the registry. */
module ShimExits {
  import opened Wrappers
  import opened ShimProcess

  /** A process object; the registry refers to it by handle. */
  datatype Proc = Proc(id: string, isInit: bool, record: ExitRecord)

  datatype Exit = Exit(id: string, status: int)

  /** `proc` is the handle of the process an exit event is about. */
  datatype Event =
    | TaskOOM(cid: string)
    | TaskExit(cid: string, proc: nat, id: string, status: int, at: Option<nat>)
    | TaskExecAdded(cid: string, execId: string)
    | TaskPaused(cid: string)
    | TaskResumed(cid: string)

  /** One handled exit. `settledAt`, `oom` and `at` are known once the thread got that far. */
  datatype Handling = Handling(
    proc: nat, isInit: bool, cid: string, id: string, status: int,
    settledAt: nat, oom: bool, at: Option<nat>)

  datatype Thread =
    | Idle
    | Killing(h: Handling)
    | Setting(h: Handling)
    | Checking(h: Handling)
    | SendingOom(h: Handling)
    | SendingExit(h: Handling)

  /** What the exit thread has done, in order. */
  datatype Act =
    | Killed(proc: nat)
    | Settled(proc: nat, status: int, now: nat)
    | Sent(event: Event)

  /** A reader of an exit record. Wait blocks on the channel first; State does not, and Delete
      does not either, once the process has let itself be deleted.
      Status and time are read in two separate critical sections. `sure` says that the exit was
      already recorded when the first read became possible. */
  datatype Stage = Blocked | ReadingStatus | ReadingTime(status: int) | Done(status: int, at: Option<nat>)

  datatype Reader = Reader(proc: nat, sure: bool, stage: Stage)

  datatype State = State(
    procs: map<nat, Proc>,
    containers: map<string, seq<nat>>,
    exits: seq<Exit>,
    thread: Thread,
    events: seq<Event>,
    published: seq<Event>,
    sent: seq<Event>,
    trace: seq<Act>,
    handled: seq<Handling>,
    taken: nat,
    dropped: nat,
    readers: map<nat, Reader>,
    now: nat)

  const CAPACITY := 128

  /** Process `proc` is registered in container `cid` under the given ID. */
  predicate Registered(s: State, cid: string, proc: nat, id: string) {
    cid in s.containers && proc in s.containers[cid] && proc in s.procs && s.procs[proc].id == id
  }

  ghost predicate SomeRegistered(s: State, id: string) {
    exists cid, proc :: Registered(s, cid, proc, id)
  }

  datatype Action =
    | NewProcess(handle: nat, id: string, isInit: bool)
    | SetRegistry(containers: map<string, seq<nat>>)
    | ProcessExits(exit: Exit)
    | TakeFound(cid: string, proc: nat)
    | TakeNone
    | ExitStep(oom: bool)
    | RpcSends(event: Event)
    | Forward
    | StartWait(rid: nat, proc: nat)
    | StartPeek(rid: nat, proc: nat)
    | ReaderStep(rid: nat)
    | Tick

  function EmptyState(): State {
    State(map[], map[], [], Idle, [], [], [], [], [], 0, 0, map[], 0)
  }

  function SendEvent(s: State, e: Event): State {
    s.(events := s.events + [e], sent := s.sent + [e])
  }

  /** One step of checkProcesses for the exit being handled. */
  function ThreadStep(s: State, oom: bool): State {
    match s.thread
    case Idle => s
    case Killing(h) =>
      s.(thread := Setting(h), trace := s.trace + [Killed(h.proc)])
    case Setting(h) =>
      if h.proc !in s.procs then s
      else
        var p := s.procs[h.proc];
        var h' := h.(settledAt := s.now);
        s.(procs := s.procs[h.proc := p.(record := Settle(p.record, h.status, s.now))],
           trace := s.trace + [Settled(h.proc, h.status, s.now)],
           thread := if h.isInit then Checking(h') else SendingExit(h'))
    case Checking(h) =>
      s.(thread := if oom then SendingOom(h.(oom := true)) else SendingExit(h))
    case SendingOom(h) =>
      if |s.events| >= CAPACITY then s
      else SendEvent(s, TaskOOM(h.cid)).(thread := SendingExit(h), trace := s.trace + [Sent(TaskOOM(h.cid))])
    case SendingExit(h) =>
      if |s.events| >= CAPACITY || h.proc !in s.procs then s
      else
        var h' := h.(at := s.procs[h.proc].record.exitedAt);
        var e := TaskExit(h.cid, h.proc, h.id, h.status, h'.at);
        SendEvent(s, e).(thread := Idle, trace := s.trace + [Sent(e)], handled := s.handled + [h'])
  }

  function ReaderNext(s: State, r: Reader): Reader
    requires r.proc in s.procs
  {
    var record := s.procs[r.proc].record;
    match r.stage
    case Blocked => if record.closes > 0 then r.(stage := ReadingStatus, sure := true) else r
    case ReadingStatus => r.(stage := ReadingTime(record.status))
    case ReadingTime(status) => r.(stage := Done(status, record.exitedAt))
    case Done(_, _) => r
  }

  /** The effect of an action; one whose guard fails does nothing. */
  ghost function Next(s: State, a: Action): State {
    match a
    case NewProcess(handle, id, isInit) =>
      if handle in s.procs then s else s.(procs := s.procs[handle := Proc(id, isInit, NEW_RECORD)])
    case SetRegistry(containers) =>
      if forall cid | cid in containers :: forall p | p in containers[cid] :: p in s.procs
      then s.(containers := containers) else s
    case ProcessExits(exit) => s.(exits := s.exits + [exit])
    case TakeFound(cid, proc) =>
      if s.thread.Idle? && s.exits != [] && Registered(s, cid, proc, s.exits[0].id) then
        var h := Handling(proc, s.procs[proc].isInit, cid, s.exits[0].id, s.exits[0].status, 0, false, None);
        s.(exits := s.exits[1..], taken := s.taken + 1, thread := if h.isInit then Killing(h) else Setting(h))
      else s
    case TakeNone =>
      if s.thread.Idle? && s.exits != [] && !SomeRegistered(s, s.exits[0].id)
      then s.(exits := s.exits[1..], taken := s.taken + 1, dropped := s.dropped + 1) else s
    case ExitStep(oom) => ThreadStep(s, oom)
    case RpcSends(event) =>
      if |s.events| < CAPACITY && !event.TaskExit? && !event.TaskOOM? then SendEvent(s, event) else s
    case Forward => if s.events == [] then s else s.(events := s.events[1..], published := s.published + [s.events[0]])
    case StartWait(rid, proc) =>
      if rid in s.readers || proc !in s.procs then s
      else s.(readers := s.readers[rid := Reader(proc, false, Blocked)])
    case StartPeek(rid, proc) =>
      if rid in s.readers || proc !in s.procs then s
      else s.(readers := s.readers[rid := Reader(proc, s.procs[proc].record.exitedAt.Some?, ReadingStatus)])
    case ReaderStep(rid) =>
      if rid in s.readers && s.readers[rid].proc in s.procs
      then s.(readers := s.readers[rid := ReaderNext(s, s.readers[rid])]) else s
    case Tick => s.(now := s.now + 1)
  }

  ghost function After(s: State, actions: seq<Action>): State
    decreases |actions|
  {
    if actions == [] then s else After(Next(s, actions[0]), actions[1..])
  }

  // --- What the exit thread's trace must look like --------------------------------------

  function Kills(h: Handling): seq<Act> {
    if h.isInit then [Killed(h.proc)] else []
  }

  function Settles(h: Handling): seq<Act> {
    Kills(h) + [Settled(h.proc, h.status, h.settledAt)]
  }

  function Ooms(h: Handling): seq<Act> {
    Settles(h) + if h.oom then [Sent(TaskOOM(h.cid))] else []
  }

  /** The whole of one handled exit: kill all (init only), record the exit, at most one OOM
      event (init only), one exit event. */
  function Segment(h: Handling): seq<Act> {
    Ooms(h) + [Sent(TaskExit(h.cid, h.proc, h.id, h.status, h.at))]
  }

  function Segments(hs: seq<Handling>): seq<Act> {
    if hs == [] then [] else Segments(hs[..|hs| - 1]) + Segment(hs[|hs| - 1])
  }

  /** The part of the current segment already done. */
  function Partial(t: Thread): seq<Act> {
    match t
    case Idle => []
    case Killing(_) => []
    case Setting(h) => Kills(h)
    case Checking(h) => Settles(h)
    case SendingOom(h) => Settles(h)
    case SendingExit(h) => Ooms(h)
  }

  predicate ThreadOk(t: Thread) {
    match t
    case Idle => true
    case Killing(h) => h.isInit && !h.oom && h.at.None?
    case Setting(h) => !h.oom && h.at.None?
    case Checking(h) => h.isInit && !h.oom && h.at.None?
    case SendingOom(h) => h.isInit && h.oom && h.at.None?
    case SendingExit(h) => (h.oom ==> h.isInit) && h.at.None?
  }

  /** The events an exit thread's acts amount to. */
  function EventsOf(trace: seq<Act>): seq<Event> {
    if trace == [] then []
    else
      var rest := EventsOf(trace[..|trace| - 1]);
      var last := trace[|trace| - 1];
      if last.Sent? then rest + [last.event] else rest
  }

  /** The exit and OOM events among those sent. */
  function OwnEvents(sent: seq<Event>): seq<Event> {
    if sent == [] then []
    else
      var rest := OwnEvents(sent[..|sent| - 1]);
      var last := sent[|sent| - 1];
      if last.TaskExit? || last.TaskOOM? then rest + [last] else rest
  }

  /** The record of a process as its history of recorded exits determines it. */
  function RecordOf(trace: seq<Act>, p: nat): ExitRecord {
    if trace == [] then NEW_RECORD
    else
      var before := RecordOf(trace[..|trace| - 1], p);
      var last := trace[|trace| - 1];
      if last.Settled? && last.proc == p then Settle(before, last.status, last.now) else before
  }

  predicate ReaderOk(procs: map<nat, Proc>, r: Reader) {
    && r.proc in procs
    && var record := procs[r.proc].record;
       && (r.sure ==> record.exitedAt.Some?)
       && match r.stage
          case Blocked => !r.sure
          case ReadingStatus => true
          case ReadingTime(status) => (r.sure ==> status == record.status) && (status == 0 || status == record.status)
          case Done(status, at) =>
            && (r.sure ==> status == record.status && at == record.exitedAt)
            && (status == 0 || status == record.status)
            && (at.None? ==> status == 0)
            && (at.Some? ==> at == record.exitedAt)
  }

  function ActProc(a: Act): Option<nat> {
    match a
    case Killed(p) => Some(p)
    case Settled(p, _, _) => Some(p)
    case Sent(e) => if e.TaskExit? then Some(e.proc) else None
  }

  /** An act is about a known process, and an exit event carries its recorded exit time. */
  predicate ActOk(procs: map<nat, Proc>, a: Act) {
    && (ActProc(a).Some? ==> ActProc(a).value in procs)
    && (a.Sent? && a.event.TaskExit? ==>
          procs[a.event.proc].record.exitedAt.Some? && a.event.at == procs[a.event.proc].record.exitedAt)
  }

  /** A handled exit is about the process it was looked up for. */
  predicate FromProc(procs: map<nat, Proc>, h: Handling) {
    h.proc in procs && procs[h.proc].id == h.id && procs[h.proc].isInit == h.isInit && (h.oom ==> h.isInit)
  }

  predicate ThreadProcOk(s: State) {
    && (forall h | h in s.handled :: FromProc(s.procs, h))
    && (s.thread.Idle? ||
          (&& FromProc(s.procs, s.thread.h)
           && (s.thread.Checking? || s.thread.SendingOom? || s.thread.SendingExit? ==>
                 s.procs[s.thread.h.proc].record.exitedAt.Some?)))
  }

  function Busy(t: Thread): nat {
    if t.Idle? then 0 else 1
  }

  /** The histories agree: nothing sent is lost or reordered, and the exit thread's trace is
      a sequence of whole segments and a part of the current one. */
  predicate HistoriesOk(s: State) {
    && s.published + s.events == s.sent
    && ThreadOk(s.thread)
    && s.trace == Segments(s.handled) + Partial(s.thread)
    && OwnEvents(s.sent) == EventsOf(s.trace)
    && s.taken == |s.handled| + s.dropped + Busy(s.thread)
  }

  /** Every exit record is the one its history determines, and everything that quotes a
      record quotes it correctly. */
  predicate RecordsOk(procs: map<nat, Proc>, trace: seq<Act>, readers: map<nat, Reader>) {
    && (forall a | a in trace :: ActOk(procs, a))
    && (forall p | p in procs :: procs[p].record == RecordOf(trace, p))
    && (forall rid | rid in readers :: ReaderOk(procs, readers[rid]))
  }

  predicate Inv(s: State) {
    HistoriesOk(s) && ThreadProcOk(s) && RecordsOk(s.procs, s.trace, s.readers)
  }

  // --- Appending to the histories -------------------------------------------------------

  lemma EventsOfSnoc(trace: seq<Act>, a: Act)
    ensures EventsOf(trace + [a]) == if a.Sent? then EventsOf(trace) + [a.event] else EventsOf(trace)
  {
    assert (trace + [a])[..|trace|] == trace;
  }

  lemma OwnEventsSnoc(sent: seq<Event>, e: Event)
    ensures OwnEvents(sent + [e]) == if e.TaskExit? || e.TaskOOM? then OwnEvents(sent) + [e] else OwnEvents(sent)
  {
    assert (sent + [e])[..|sent|] == sent;
  }

  lemma RecordOfSnoc(trace: seq<Act>, a: Act, p: nat)
    ensures RecordOf(trace + [a], p) ==
            if a.Settled? && a.proc == p then Settle(RecordOf(trace, p), a.status, a.now) else RecordOf(trace, p)
  {
    assert (trace + [a])[..|trace|] == trace;
  }

  lemma SegmentsSnoc(hs: seq<Handling>, h: Handling)
    ensures Segments(hs + [h]) == Segments(hs) + Segment(h)
  {
    assert (hs + [h])[..|hs|] == hs;
  }

  /** A process no act mentions has a fresh record; a record not yet set has status 0. */
  lemma {:induction false} RecordOfShape(trace: seq<Act>, p: nat)
    ensures (forall a | a in trace :: ActProc(a) != Some(p)) ==> RecordOf(trace, p) == NEW_RECORD
    ensures var r := RecordOf(trace, p);
            (r.exitedAt.None? ==> r == NEW_RECORD) && r.closes == (if r.exitedAt.Some? then 1 else 0)
    decreases |trace|
  {
    if trace != [] {
      var rest := trace[..|trace| - 1];
      RecordOfShape(rest, p);
      assert trace[|trace| - 1] in trace;
      assert forall a | a in rest :: a in trace;
    }
  }

  // --- Every action keeps the invariant -------------------------------------------------

  lemma NewProcessKeepsRecords(procs: map<nat, Proc>, trace: seq<Act>, readers: map<nat, Reader>, handle: nat, p: Proc)
    requires RecordsOk(procs, trace, readers) && handle !in procs && p.record == NEW_RECORD
    ensures RecordsOk(procs[handle := p], trace, readers)
  {
    var procs' := procs[handle := p];
    forall a | a in trace ensures ActOk(procs', a) && ActProc(a) != Some(handle) { assert ActOk(procs, a); }
    RecordOfShape(trace, handle);
    forall rid | rid in readers ensures ReaderOk(procs', readers[rid]) { assert ReaderOk(procs, readers[rid]); }
  }

  lemma SettleKeepsRecords(procs: map<nat, Proc>, trace: seq<Act>, readers: map<nat, Reader>, act: Act)
    requires RecordsOk(procs, trace, readers) && act.Settled? && act.proc in procs
    ensures var p := procs[act.proc];
            RecordsOk(procs[act.proc := p.(record := Settle(p.record, act.status, act.now))], trace + [act], readers)
  {
    var p := procs[act.proc];
    var procs' := procs[act.proc := p.(record := Settle(p.record, act.status, act.now))];
    forall a | a in trace + [act] ensures ActOk(procs', a) {
      if a in trace { assert ActOk(procs, a); }
    }
    forall q | q in procs' ensures procs'[q].record == RecordOf(trace + [act], q) {
      RecordOfSnoc(trace, act, q);
    }
    forall rid | rid in readers ensures ReaderOk(procs', readers[rid]) {
      assert ReaderOk(procs, readers[rid]);
      RecordOfShape(trace, readers[rid].proc);
    }
  }

  /** Acts that record no exit leave every record as it is. */
  lemma QuietActKeepsRecords(procs: map<nat, Proc>, trace: seq<Act>, readers: map<nat, Reader>, act: Act)
    requires RecordsOk(procs, trace, readers) && !act.Settled? && ActOk(procs, act)
    ensures RecordsOk(procs, trace + [act], readers)
  {
    forall q | q in procs ensures procs[q].record == RecordOf(trace + [act], q) {
      RecordOfSnoc(trace, act, q);
    }
  }

  lemma ReaderStepKeepsRecords(s: State, rid: nat)
    requires RecordsOk(s.procs, s.trace, s.readers) && rid in s.readers
    ensures ReaderOk(s.procs, ReaderNext(s, s.readers[rid]))
    ensures RecordsOk(s.procs, s.trace, s.readers[rid := ReaderNext(s, s.readers[rid])])
  {
    assert ReaderOk(s.procs, s.readers[rid]);
    RecordOfShape(s.trace, s.readers[rid].proc);
  }

  /** The exit thread appends one act and, if it is an event, sends exactly that event. */
  lemma ActKeepsHistories(s: State, act: Act)
    requires OwnEvents(s.sent) == EventsOf(s.trace)
    requires act.Sent? ==> act.event.TaskExit? || act.event.TaskOOM?
    ensures EventsOf(s.trace + [act]) == OwnEvents(if act.Sent? then s.sent + [act.event] else s.sent)
  {
    EventsOfSnoc(s.trace, act);
    if act.Sent? { OwnEventsSnoc(s.sent, act.event); }
  }

  lemma Regroup<T>(a: seq<T>, b: seq<T>, c: seq<T>)
    ensures (a + b) + c == a + (b + c)
  {
  }

  lemma NothingPartial<T>(a: seq<T>)
    ensures a + [] == a
  {
  }

  lemma PartialAfterSetting(h: Handling, now: nat)
    requires !h.oom
    ensures var h' := h.(settledAt := now);
            var done := Kills(h) + [Settled(h.proc, h.status, now)];
            Partial(Checking(h')) == done && Partial(SendingExit(h')) == done
  {
    var h' := h.(settledAt := now);
    assert Settles(h') + [] == Settles(h');
  }

  lemma SettingStep(s: State, oom: bool)
    requires ThreadOk(s.thread) && s.thread.Setting? && s.thread.h.proc in s.procs
    ensures var (h, t) := (s.thread.h, ThreadStep(s, oom));
            var act := Settled(h.proc, h.status, s.now);
            && t.trace == s.trace + [act] && Partial(t.thread) == Kills(h) + [act] && ThreadOk(t.thread)
            && (t.published, t.events, t.sent, t.handled, t.taken, t.dropped)
               == (s.published, s.events, s.sent, s.handled, s.taken, s.dropped)
            && !t.thread.Idle?
  {
    PartialAfterSetting(s.thread.h, s.now);
  }

  lemma SettingKeepsHistories(s: State, oom: bool)
    requires HistoriesOk(s) && s.thread.Setting?
    ensures HistoriesOk(ThreadStep(s, oom))
  {
    var h := s.thread.h;
    if h.proc in s.procs {
      var act := Settled(h.proc, h.status, s.now);
      SettingStep(s, oom);
      ActKeepsHistories(s, act);
      Regroup(Segments(s.handled), Kills(h), [act]);
    }
  }

  lemma SettingKeepsRecords(s: State, oom: bool)
    requires RecordsOk(s.procs, s.trace, s.readers) && ThreadProcOk(s) && s.thread.Setting?
    ensures var t := ThreadStep(s, oom); RecordsOk(t.procs, t.trace, t.readers) && ThreadProcOk(t)
  {
    SettleKeepsRecords(s.procs, s.trace, s.readers, Settled(s.thread.h.proc, s.thread.h.status, s.now));
  }

  lemma SendingOomKeepsHistories(s: State, oom: bool)
    requires HistoriesOk(s) && s.thread.SendingOom?
    ensures HistoriesOk(ThreadStep(s, oom))
  {
    var h := s.thread.h;
    var e := TaskOOM(h.cid);
    ActKeepsHistories(s, Sent(e));
    Regroup(Segments(s.handled), Settles(h), [Sent(e)]);
    Regroup(s.published, s.events, [e]);
  }

  lemma SendingExitKeepsHistories(s: State, oom: bool)
    requires HistoriesOk(s) && s.thread.SendingExit?
    ensures HistoriesOk(ThreadStep(s, oom))
  {
    var h := s.thread.h;
    if h.proc in s.procs {
      var h' := h.(at := s.procs[h.proc].record.exitedAt);
      var e := TaskExit(h.cid, h.proc, h.id, h.status, h'.at);
      ActKeepsHistories(s, Sent(e));
      SegmentsSnoc(s.handled, h');
      assert Segment(h') == Ooms(h) + [Sent(e)];
      Regroup(Segments(s.handled), Ooms(h), [Sent(e)]);
      NothingPartial(Segments(s.handled + [h']));
      Regroup(s.published, s.events, [e]);
    }
  }

  lemma SendingKeepsRecords(s: State, oom: bool)
    requires RecordsOk(s.procs, s.trace, s.readers) && ThreadProcOk(s)
    requires s.thread.SendingOom? || s.thread.SendingExit?
    ensures var t := ThreadStep(s, oom); RecordsOk(t.procs, t.trace, t.readers) && ThreadProcOk(t)
  {
    var h := s.thread.h;
    var e := if s.thread.SendingOom? then TaskOOM(h.cid)
             else TaskExit(h.cid, h.proc, h.id, h.status, s.procs[h.proc].record.exitedAt);
    QuietActKeepsRecords(s.procs, s.trace, s.readers, Sent(e));
  }

  lemma KillingKeepsInv(s: State, oom: bool)
    requires Inv(s) && s.thread.Killing?
    ensures Inv(ThreadStep(s, oom))
  {
    var h := s.thread.h;
    ActKeepsHistories(s, Killed(h.proc));
    QuietActKeepsRecords(s.procs, s.trace, s.readers, Killed(h.proc));
    NothingPartial(Segments(s.handled));
  }

  lemma CheckingKeepsInv(s: State, oom: bool)
    requires Inv(s) && s.thread.Checking?
    ensures Inv(ThreadStep(s, oom))
  {
    NothingPartial(Settles(s.thread.h));
  }

  lemma ThreadStepKeepsInv(s: State, oom: bool)
    requires Inv(s)
    ensures Inv(ThreadStep(s, oom))
  {
    if s.thread.Killing? {
      KillingKeepsInv(s, oom);
    } else if s.thread.Setting? {
      SettingKeepsHistories(s, oom);
      SettingKeepsRecords(s, oom);
    } else if s.thread.Checking? {
      CheckingKeepsInv(s, oom);
    } else if s.thread.SendingOom? {
      SendingOomKeepsHistories(s, oom);
      SendingKeepsRecords(s, oom);
    } else if s.thread.SendingExit? {
      SendingExitKeepsHistories(s, oom);
      SendingKeepsRecords(s, oom);
    }
  }

  lemma QueueActionKeepsInv(s: State, a: Action)
    requires Inv(s) && (a.RpcSends? || a.Forward? || a.ProcessExits? || a.SetRegistry? || a.Tick?)
    ensures Inv(Next(s, a))
  {
    if a.RpcSends? {
      OwnEventsSnoc(s.sent, a.event);
      assert s.published + (s.events + [a.event]) == s.sent + [a.event];
    } else if a.Forward? && s.events != [] {
      assert (s.published + [s.events[0]]) + s.events[1..] == s.sent;
    }
  }

  lemma TakeKeepsInv(s: State, a: Action)
    requires Inv(s) && (a.TakeFound? || a.TakeNone?)
    ensures Inv(Next(s, a))
  {
  }

  lemma ReaderActionKeepsInv(s: State, a: Action)
    requires Inv(s) && (a.StartWait? || a.StartPeek? || a.ReaderStep?)
    ensures Inv(Next(s, a))
  {
    if a.ReaderStep? && a.rid in s.readers { ReaderStepKeepsRecords(s, a.rid); }
  }

  lemma NextKeepsInv(s: State, a: Action)
    requires Inv(s)
    ensures Inv(Next(s, a))
  {
    match a
    case NewProcess(handle, id, isInit) =>
      if handle !in s.procs {
        NewProcessKeepsRecords(s.procs, s.trace, s.readers, handle, Proc(id, isInit, NEW_RECORD));
      }
    case ExitStep(oom) => ThreadStepKeepsInv(s, oom);
    case TakeFound(_, _) => TakeKeepsInv(s, a);
    case TakeNone => TakeKeepsInv(s, a);
    case StartWait(_, _) => ReaderActionKeepsInv(s, a);
    case StartPeek(_, _) => ReaderActionKeepsInv(s, a);
    case ReaderStep(_) => ReaderActionKeepsInv(s, a);
    case _ => QueueActionKeepsInv(s, a);
  }

  lemma {:induction false} ReachableKeepsInv(s: State, actions: seq<Action>)
    requires Inv(s)
    ensures Inv(After(s, actions))
    decreases |actions|
  {
    if actions != [] {
      NextKeepsInv(s, actions[0]);
      ReachableKeepsInv(Next(s, actions[0]), actions[1..]);
    }
  }

  /** Every state the shim can reach, whatever the interleaving. */
  lemma ReachableInv(actions: seq<Action>)
    ensures Inv(After(EmptyState(), actions))
  {
    ReachableKeepsInv(EmptyState(), actions);
  }

  // --- Order and number of exit events --------------------------------------------------

  function ExitEvent(h: Handling): Event {
    TaskExit(h.cid, h.proc, h.id, h.status, h.at)
  }

  function ExitEvents(hs: seq<Handling>): (r: seq<Event>)
    ensures |r| == |hs|
    ensures forall i | 0 <= i < |hs| :: r[i] == ExitEvent(hs[i])
  {
    if hs == [] then [] else ExitEvents(hs[..|hs| - 1]) + [ExitEvent(hs[|hs| - 1])]
  }

  /** The exit events among a sequence of events. */
  function ExitsOf(events: seq<Event>): seq<Event> {
    if events == [] then []
    else
      var rest := ExitsOf(events[..|events| - 1]);
      var last := events[|events| - 1];
      if last.TaskExit? then rest + [last] else rest
  }

  lemma {:induction false} ExitsOfConcat(a: seq<Event>, b: seq<Event>)
    ensures ExitsOf(a + b) == ExitsOf(a) + ExitsOf(b)
    decreases |b|
  {
    if b == [] {
      assert a + b == a;
    } else {
      var n := |b| - 1;
      assert (a + b)[..|a + b| - 1] == a + b[..n];
      ExitsOfConcat(a, b[..n]);
    }
  }

  lemma {:induction false} ExitsOfOwn(sent: seq<Event>)
    ensures ExitsOf(OwnEvents(sent)) == ExitsOf(sent)
    decreases |sent|
  {
    if sent != [] {
      var n := |sent| - 1;
      ExitsOfOwn(sent[..n]);
      var own := OwnEvents(sent[..n]);
      if sent[n].TaskExit? || sent[n].TaskOOM? { assert (own + [sent[n]])[..|own|] == own; }
    }
  }

  lemma {:induction false} EventsOfConcat(a: seq<Act>, b: seq<Act>)
    ensures EventsOf(a + b) == EventsOf(a) + EventsOf(b)
    decreases |b|
  {
    if b == [] {
      assert a + b == a;
    } else {
      var n := |b| - 1;
      assert (a + b)[..|a + b| - 1] == a + b[..n];
      EventsOfConcat(a, b[..n]);
    }
  }

  lemma PartialEvents(t: Thread)
    ensures ExitsOf(EventsOf(Partial(t))) == []
  {
    if !t.Idle? {
      var h := t.h;
      assert EventsOf(Kills(h)) == [];
      EventsOfSnoc(Kills(h), Settled(h.proc, h.status, h.settledAt));
      if h.oom {
        EventsOfSnoc(Settles(h), Sent(TaskOOM(h.cid)));
        assert [TaskOOM(h.cid)][..0] == [];
      } else {
        NothingPartial(Settles(h));
      }
    }
  }

  lemma SegmentEvent(h: Handling)
    ensures ExitsOf(EventsOf(Segment(h))) == [ExitEvent(h)]
  {
    var oom := EventsOf(Ooms(h));
    EventsOfSnoc(Ooms(h), Sent(ExitEvent(h)));
    PartialEvents(SendingExit(h));
    assert (oom + [ExitEvent(h)])[..|oom|] == oom;
  }

  lemma ExitsOfActs(a: seq<Act>, b: seq<Act>)
    ensures ExitsOf(EventsOf(a + b)) == ExitsOf(EventsOf(a)) + ExitsOf(EventsOf(b))
  {
    EventsOfConcat(a, b);
    ExitsOfConcat(EventsOf(a), EventsOf(b));
  }

  lemma {:induction false} SegmentEvents(hs: seq<Handling>)
    ensures ExitsOf(EventsOf(Segments(hs))) == ExitEvents(hs)
    decreases |hs|
  {
    if hs != [] {
      var front, h := hs[..|hs| - 1], hs[|hs| - 1];
      SegmentEvents(front);
      SegmentEvent(h);
      ExitsOfActs(Segments(front), Segment(h));
    }
  }

  /** The exit events sent are exactly the handled exits, in the order they were taken: one for
      each, none for an exit whose process was not registered at lookup. */
  lemma ExitEventsAreHandledExits(s: State)
    requires Inv(s)
    ensures ExitsOf(s.published + s.events) == ExitEvents(s.handled)
    ensures s.taken == |ExitsOf(s.sent)| + s.dropped + Busy(s.thread)
  {
    ExitsOfOwn(s.sent);
    ExitsOfActs(Segments(s.handled), Partial(s.thread));
    SegmentEvents(s.handled);
    PartialEvents(s.thread);
  }

  /** A taken exit is dropped only if no process was registered under its ID. */
  lemma TakeDropsIffUnregistered(s: State, a: Action)
    requires a.TakeFound? || a.TakeNone?
    requires s.thread.Idle? && s.exits != []
    ensures Next(s, a).dropped > s.dropped ==> !SomeRegistered(s, s.exits[0].id)
    ensures Next(s, a).thread != s.thread ==> SomeRegistered(s, s.exits[0].id)
    ensures SomeRegistered(s, s.exits[0].id) <==>
              exists cid, proc :: Next(s, TakeFound(cid, proc)).thread != s.thread
  {
    if SomeRegistered(s, s.exits[0].id) {
      var cid, proc :| Registered(s, cid, proc, s.exits[0].id);
      assert Next(s, TakeFound(cid, proc)).thread != s.thread;
    }
  }

  lemma {:induction false} SegmentsSplit(hs: seq<Handling>, i: nat) returns (before: seq<Act>, after: seq<Act>)
    requires i < |hs|
    ensures Segments(hs) == before + Segment(hs[i]) + after
    ensures before == Segments(hs[..i])
    decreases |hs|
  {
    var n := |hs| - 1;
    if i == n {
      before, after := Segments(hs[..n]), [];
    } else {
      before, after := SegmentsSplit(hs[..n], i);
      assert hs[..n][..i] == hs[..i];
      after := after + Segment(hs[n]);
    }
  }

  /** For each handled exit, in every interleaving: an init is killed first, then its exit is
      recorded, then at most one OOM event (init only), then its one exit event; nothing else
      happens on the exit thread in between. */
  lemma ExitOrder(s: State, i: nat) returns (k: nat)
    requires Inv(s) && i < |s.handled|
    ensures var h := s.handled[i];
            && k + |Segment(h)| <= |s.trace|
            && s.trace[k..k + |Segment(h)|] == Segment(h)
            && h.proc in s.procs && h.isInit == s.procs[h.proc].isInit
            && (h.oom ==> h.isInit)
  {
    var h := s.handled[i];
    assert h in s.handled;
    var before, after := SegmentsSplit(s.handled, i);
    k := |before|;
    Regroup(before + Segment(h), after, Partial(s.thread));
    assert s.trace == before + Segment(h) + (after + Partial(s.thread));
  }

  /** The same, act by act. */
  lemma ExitActs(s: State, i: nat) returns (settle: nat, exit: nat)
    requires Inv(s) && i < |s.handled|
    ensures var h := s.handled[i];
            && settle < exit < |s.trace|
            && s.trace[settle] == Settled(h.proc, h.status, h.settledAt)
            && s.trace[exit] == Sent(TaskExit(h.cid, h.proc, h.id, h.status, h.at))
            && (h.isInit ==> settle > 0 && s.trace[settle - 1] == Killed(h.proc))
            && (if h.oom then exit == settle + 2 && s.trace[settle + 1] == Sent(TaskOOM(h.cid)) else exit == settle + 1)
  {
    var h := s.handled[i];
    var k := ExitOrder(s, i);
    var n, killed := |Segment(h)|, |Kills(h)|;
    SegmentActs(h);
    settle, exit := k + killed, k + n - 1;
    SliceAt(s.trace, k, Segment(h), killed);
    SliceAt(s.trace, k, Segment(h), n - 1);
    if h.isInit { SliceAt(s.trace, k, Segment(h), 0); }
    if h.oom { SliceAt(s.trace, k, Segment(h), killed + 1); }
  }

  lemma SegmentActs(h: Handling)
    ensures var acts := Segment(h);
            var killed := |Kills(h)|;
            && killed == (if h.isInit then 1 else 0) && |acts| == killed + (if h.oom then 3 else 2)
            && acts[killed] == Settled(h.proc, h.status, h.settledAt)
            && acts[|acts| - 1] == Sent(TaskExit(h.cid, h.proc, h.id, h.status, h.at))
            && (h.isInit ==> acts[0] == Killed(h.proc))
            && (h.oom ==> acts[killed + 1] == Sent(TaskOOM(h.cid)))
  {
  }

  lemma SliceAt(trace: seq<Act>, k: nat, segment: seq<Act>, j: nat)
    requires k + |segment| <= |trace| && trace[k..k + |segment|] == segment && j < |segment|
    ensures trace[k + j] == segment[j]
  {
  }

  // --- From the exit queue to the event ---------------------------------------------------

  lemma {:induction false} AfterConcat(s: State, g: seq<Action>, h: seq<Action>)
    ensures After(s, g + h) == After(After(s, g), h)
    decreases |g|
  {
    if g == [] {
      assert g + h == h;
    } else {
      assert (g + h)[1..] == g[1..] + h;
      AfterConcat(Next(s, g[0]), g[1..], h);
    }
  }

  lemma AfterSnoc(s: State, h: seq<Action>, a: Action)
    ensures After(s, h + [a]) == Next(After(s, h), a)
  {
    AfterConcat(s, h, [a]);
    assert [a][1..] == [];
  }

  /** The exits that processes have. */
  function Arrivals(actions: seq<Action>): seq<Exit> {
    if actions == [] then []
    else (if actions[0].ProcessExits? then [actions[0].exit] else []) + Arrivals(actions[1..])
  }

  /** The queue is what it was and what came, less the exits taken from its front. */
  predicate QueueAdvances(s: State, t: State, came: seq<Exit>) {
    && s.taken <= t.taken <= s.taken + |s.exits + came| && t.exits == (s.exits + came)[t.taken - s.taken..]
  }

  lemma NextExits(s: State, a: Action)
    ensures QueueAdvances(s, Next(s, a), if a.ProcessExits? then [a.exit] else [])
  {
    if a.TakeFound? || a.TakeNone? {
      TakeAdvances(s, a);
    } else {
      OthersTakeNone(s, a);
      var came := if a.ProcessExits? then [a.exit] else [];
      NothingPartial(s.exits);
      assert (s.exits + came)[0..] == s.exits + came;
    }
  }

  lemma TakePops(s: State, a: Action)
    requires a.TakeFound? || a.TakeNone?
    ensures var t := Next(s, a);
            || (t.taken == s.taken && t.exits == s.exits)
            || (t.taken == s.taken + 1 && s.exits != [] && t.exits == s.exits[1..])
  {
  }

  lemma TakeAdvances(s: State, a: Action)
    requires a.TakeFound? || a.TakeNone?
    ensures QueueAdvances(s, Next(s, a), [])
  {
    TakePops(s, a);
    NothingPartial(s.exits);
    assert s.exits[0..] == s.exits;
  }

  lemma OthersTakeNone(s: State, a: Action)
    requires !a.TakeFound? && !a.TakeNone?
    ensures Next(s, a).taken == s.taken
    ensures Next(s, a).exits == if a.ProcessExits? then s.exits + [a.exit] else s.exits
  {
    if a.ExitStep? { ThreadStepLeavesQueue(s, a.oom); }
  }

  lemma ThreadStepLeavesQueue(s: State, oom: bool)
    ensures ThreadStep(s, oom).exits == s.exits && ThreadStep(s, oom).taken == s.taken
  {
  }

  /** The exit queue loses nothing and keeps its order: what is left is what has come in after the
      exits taken. */
  lemma {:induction false} ExitsAreTakenInOrder(s: State, actions: seq<Action>)
    ensures QueueAdvances(s, After(s, actions), Arrivals(actions))
    decreases |actions|
  {
    if actions == [] {
      NothingPartial(s.exits);
      assert s.exits[0..] == s.exits;
    } else {
      var u := Next(s, actions[0]);
      NextExits(s, actions[0]);
      ExitsAreTakenInOrder(u, actions[1..]);
      AdvancesTwice(s, u, After(u, actions[1..]), if actions[0].ProcessExits? then [actions[0].exit] else [],
                    Arrivals(actions[1..]));
    }
  }

  lemma AdvancesTwice(s: State, u: State, t: State, came: seq<Exit>, rest: seq<Exit>)
    requires QueueAdvances(s, u, came) && QueueAdvances(u, t, rest)
    ensures QueueAdvances(s, t, came + rest)
  {
    QueueTwice(s.exits, came, rest, u.taken - s.taken, t.taken - u.taken);
  }

  lemma QueueTwice(queue: seq<Exit>, came: seq<Exit>, rest: seq<Exit>, j: nat, k: nat)
    requires j <= |queue + came| && k <= |(queue + came)[j..] + rest|
    ensures j + k <= |queue + (came + rest)|
    ensures ((queue + came)[j..] + rest)[k..] == (queue + (came + rest))[j + k..]
  {
    Regroup(queue, came, rest);
    QueueTail(queue + came, rest, j, k);
  }

  lemma QueueTail(queue: seq<Exit>, more: seq<Exit>, j: nat, k: nat)
    requires j <= |queue| && k <= |queue[j..] + more|
    ensures j + k <= |queue + more| && (queue[j..] + more)[k..] == (queue + more)[j + k..]
  {
  }

  /** The handling of one exit of one process. */
  predicate About(h: Handling, cid: string, proc: nat, isInit: bool, e: Exit) {
    h.cid == cid && h.proc == proc && h.isInit == isInit && h.id == e.id && h.status == e.status
  }

  /** The exit is being handled as the n-th, or has been. */
  predicate Underway(s: State, n: nat, cid: string, proc: nat, isInit: bool, e: Exit) {
    if |s.handled| == n then !s.thread.Idle? && About(s.thread.h, cid, proc, isInit, e)
    else |s.handled| > n && About(s.handled[n], cid, proc, isInit, e)
  }

  lemma NextStaysUnderway(s: State, a: Action, n: nat, cid: string, proc: nat, isInit: bool, e: Exit)
    requires Underway(s, n, cid, proc, isInit, e)
    ensures Underway(Next(s, a), n, cid, proc, isInit, e)
  {
  }

  lemma {:induction false} StaysUnderway(
      s: State, actions: seq<Action>, n: nat, cid: string, proc: nat, isInit: bool, e: Exit)
    requires Underway(s, n, cid, proc, isInit, e)
    ensures Underway(After(s, actions), n, cid, proc, isInit, e)
    decreases |actions|
  {
    if actions != [] {
      NextStaysUnderway(s, actions[0], n, cid, proc, isInit, e);
      StaysUnderway(Next(s, actions[0]), actions[1..], n, cid, proc, isInit, e);
    }
  }

  /** An exit that is taken for a process is the next to be handled, and is reported with its own
      ID and status, for that process and container: by the time the thread is idle again. */
  lemma TakenExitIsReported(s: State, cid: string, proc: nat, more: seq<Action>)
    requires s.thread.Idle? && s.exits != [] && Registered(s, cid, proc, s.exits[0].id)
    ensures var t := After(Next(s, TakeFound(cid, proc)), more);
            && Underway(t, |s.handled|, cid, proc, s.procs[proc].isInit, s.exits[0])
            && (t.thread.Idle? ==>
                  && |t.handled| > |s.handled|
                  && About(t.handled[|s.handled|], cid, proc, s.procs[proc].isInit, s.exits[0]))
  {
    StaysUnderway(Next(s, TakeFound(cid, proc)), more, |s.handled|, cid, proc, s.procs[proc].isInit, s.exits[0]);
  }

  // --- Out-of-memory kills ----------------------------------------------------------------

  /** At step x the thread asks whether the container of the i-th exit it handles was out of
      memory, and is told. */
  ghost predicate AskedAt(actions: seq<Action>, x: nat, i: nat, answer: bool) {
    && x < |actions| && actions[x] == ExitStep(answer)
    && var u := After(EmptyState(), actions[..x]);
       u.thread.Checking? && |u.handled| == i
  }

  ghost predicate Asked(actions: seq<Action>, i: nat, answer: bool) {
    exists x: nat :: AskedAt(actions, x, i, answer)
  }

  /** The answers are what the handled exits record, and the one in progress. */
  ghost predicate AnswersRecorded(actions: seq<Action>) {
    var t := After(EmptyState(), actions);
    && (forall i | 0 <= i < |t.handled| && t.handled[i].isInit :: Asked(actions, i, t.handled[i].oom))
    && (Reporting(t.thread) && t.thread.h.isInit ==>
          Asked(actions, |t.handled|, t.thread.h.oom))
  }

  lemma AskedStays(actions: seq<Action>, a: Action, i: nat, answer: bool)
    requires Asked(actions, i, answer)
    ensures Asked(actions + [a], i, answer)
  {
    var x: nat :| AskedAt(actions, x, i, answer);
    assert (actions + [a])[..x] == actions[..x];
    assert AskedAt(actions + [a], x, i, answer);
  }

  lemma AskedNow(actions: seq<Action>, answer: bool)
    requires After(EmptyState(), actions).thread.Checking?
    ensures Asked(actions + [ExitStep(answer)], |After(EmptyState(), actions).handled|, answer)
  {
    assert (actions + [ExitStep(answer)])[..|actions|] == actions;
    assert AskedAt(actions + [ExitStep(answer)], |actions|, |After(EmptyState(), actions).handled|, answer);
  }

  predicate Reporting(t: Thread) {
    t.SendingOom? || t.SendingExit?
  }

  /** The handled exits grow by the one being reported. */
  predicate Grown(before: seq<Handling>, after: seq<Handling>, h: Handling) {
    && |after| == |before| + 1 && after[..|before|] == before
    && after[|before|].isInit == h.isInit && after[|before|].oom == h.oom
  }

  /** One begins to be reported with the answer that was given, if it is an init's. */
  predicate Carried(s: Thread, t: Thread, a: Action) {
    Reporting(t) && t.h.isInit ==>
      || (Reporting(s) && s.h.isInit && s.h.oom == t.h.oom)
      || (s.Checking? && a == ExitStep(t.h.oom))
  }

  predicate Advances(s: State, t: State, a: Action) {
    if t.handled == s.handled then Carried(s.thread, t.thread, a)
    else Reporting(s.thread) && Grown(s.handled, t.handled, s.thread.h) && t.thread.Idle?
  }

  lemma ThreadAdvances(s: State, oom: bool)
    requires ThreadOk(s.thread)
    ensures Advances(s, ThreadStep(s, oom), ExitStep(oom))
  {
  }

  lemma NextAdvances(s: State, a: Action)
    requires ThreadOk(s.thread)
    ensures Advances(s, Next(s, a), a)
  {
    if a.ExitStep? {
      ThreadAdvances(s, a.oom);
    } else {
      OthersLeaveThread(s, a);
    }
  }

  lemma OthersLeaveThread(s: State, a: Action)
    requires !a.ExitStep?
    ensures Next(s, a).handled == s.handled
    ensures Next(s, a).thread == s.thread || !Reporting(Next(s, a).thread)
  {
  }

  lemma CarryAnswers(actions: seq<Action>, a: Action, s: State, t: State)
    requires AnswersRecorded(actions) && s == After(EmptyState(), actions) && Advances(s, t, a)
    ensures forall i | 0 <= i < |t.handled| && t.handled[i].isInit :: Asked(actions + [a], i, t.handled[i].oom)
    ensures Reporting(t.thread) && t.thread.h.isInit ==> Asked(actions + [a], |t.handled|, t.thread.h.oom)
  {
    forall i | 0 <= i < |t.handled| && t.handled[i].isInit ensures Asked(actions + [a], i, t.handled[i].oom) {
      if i < |s.handled| { assert t.handled[..|s.handled|][i] == s.handled[i]; }
      AskedStays(actions, a, i, t.handled[i].oom);
    }
    if Reporting(t.thread) && t.thread.h.isInit {
      if Reporting(s.thread) && s.thread.h.isInit && s.thread.h.oom == t.thread.h.oom {
        AskedStays(actions, a, |s.handled|, t.thread.h.oom);
      } else {
        AskedNow(actions, t.thread.h.oom);
      }
    }
  }

  lemma NextRecordsAnswers(actions: seq<Action>, a: Action)
    requires AnswersRecorded(actions)
    ensures AnswersRecorded(actions + [a])
  {
    var s := After(EmptyState(), actions);
    ReachableInv(actions);
    NextAdvances(s, a);
    CarryAnswers(actions, a, s, Next(s, a));
    AfterSnoc(EmptyState(), actions, a);
  }

  /** In every interleaving each handled exit of an init was checked for an out-of-memory kill, and
      is announced as one if and only if the answer was yes; exits of other processes never are. */
  lemma {:induction false} OomFollowsTheAnswer(actions: seq<Action>)
    ensures AnswersRecorded(actions)
    ensures var t := After(EmptyState(), actions);
            forall i | 0 <= i < |t.handled| && !t.handled[i].isInit :: !t.handled[i].oom
    decreases |actions|
  {
    if actions != [] {
      var n := |actions| - 1;
      OomFollowsTheAnswer(actions[..n]);
      NextRecordsAnswers(actions[..n], actions[n]);
      assert actions == actions[..n] + [actions[n]];
    }
    ReachableInv(actions);
    var t := After(EmptyState(), actions);
    forall i | 0 <= i < |t.handled| && !t.handled[i].isInit ensures !t.handled[i].oom {
      assert t.handled[i] in t.handled && FromProc(t.procs, t.handled[i]);
    }
  }

  // --- Agreement on the exit status -----------------------------------------------------

  /** The first exit recorded for a process, in a trace. */
  function FirstSettled(trace: seq<Act>, p: nat): Option<(int, nat)> {
    if trace == [] then None
    else
      var before := FirstSettled(trace[..|trace| - 1], p);
      var last := trace[|trace| - 1];
      if before.Some? then before
      else if last.Settled? && last.proc == p then Some((last.status, last.now)) else None
  }

  lemma {:induction false} RecordIsFirstSettled(trace: seq<Act>, p: nat)
    ensures var r := RecordOf(trace, p);
            match FirstSettled(trace, p)
            case None => r == NEW_RECORD
            case Some((status, now)) => r == ExitRecord(status, Some(now), 1)
    decreases |trace|
  {
    if trace != [] { RecordIsFirstSettled(trace[..|trace| - 1], p); }
  }

  lemma {:induction false} FirstSettledConcat(a: seq<Act>, b: seq<Act>, p: nat)
    ensures FirstSettled(a + b, p) == if FirstSettled(a, p).Some? then FirstSettled(a, p) else FirstSettled(b, p)
    decreases |b|
  {
    if b == [] {
      assert a + b == a;
    } else {
      var n := |b| - 1;
      assert (a + b)[..|a + b| - 1] == a + b[..n];
      FirstSettledConcat(a, b[..n], p);
    }
  }

  lemma FirstSettledSegment(h: Handling, p: nat)
    ensures FirstSettled(Segment(h), p) == if h.proc == p then Some((h.status, h.settledAt)) else None
  {
    var settle := Settled(h.proc, h.status, h.settledAt);
    var rest := (if h.oom then [Sent(TaskOOM(h.cid))] else []) + [Sent(ExitEvent(h))];
    assert Segment(h) == Kills(h) + ([settle] + rest);
    FirstSettledConcat(Kills(h), [settle] + rest, p);
    FirstSettledConcat([settle], rest, p);
    assert [settle][..0] == [];
    assert FirstSettled(Kills(h), p) == None;
    SentSettlesNothing(rest, p);
  }

  lemma {:induction false} SentSettlesNothing(acts: seq<Act>, p: nat)
    requires forall a | a in acts :: a.Sent?
    ensures FirstSettled(acts, p) == None
    decreases |acts|
  {
    if acts != [] {
      assert acts[|acts| - 1] in acts;
      SentSettlesNothing(acts[..|acts| - 1], p);
    }
  }

  lemma {:induction false} FirstSettledSegments(hs: seq<Handling>, p: nat)
    requires forall h | h in hs :: h.proc != p
    ensures FirstSettled(Segments(hs), p) == None
    decreases |hs|
  {
    if hs != [] {
      var n := |hs| - 1;
      assert hs[n] in hs;
      FirstSettledSegments(hs[..n], p);
      FirstSettledConcat(Segments(hs[..n]), Segment(hs[n]), p);
      FirstSettledSegment(hs[n], p);
    }
  }

  lemma SettledWithin(before: seq<Act>, h: Handling, rest: seq<Act>)
    requires FirstSettled(before, h.proc) == None
    ensures FirstSettled((before + Segment(h)) + rest, h.proc) == Some((h.status, h.settledAt))
  {
    FirstSettledConcat(before + Segment(h), rest, h.proc);
    FirstSettledConcat(before, Segment(h), h.proc);
    FirstSettledSegment(h, h.proc);
  }

  lemma NoneBefore(hs: seq<Handling>, i: nat)
    requires i < |hs| && forall j | 0 <= j < i :: hs[j].proc != hs[i].proc
    ensures FirstSettled(Segments(hs[..i]), hs[i].proc) == None
  {
    FirstSettledSegments(hs[..i], hs[i].proc);
  }

  /** The readable status and time of a process are those of its first handled exit. */
  lemma FirstHandledExitIsRecorded(s: State, i: nat)
    requires Inv(s) && i < |s.handled|
    requires forall j | 0 <= j < i :: s.handled[j].proc != s.handled[i].proc
    ensures var h := s.handled[i];
            h.proc in s.procs && s.procs[h.proc].record == ExitRecord(h.status, Some(h.settledAt), 1)
  {
    var h := s.handled[i];
    assert h in s.handled && FromProc(s.procs, h);
    var before, after := SegmentsSplit(s.handled, i);
    Regroup(before + Segment(h), after, Partial(s.thread));
    NoneBefore(s.handled, i);
    SettledWithin(before, h, after + Partial(s.thread));
    RecordIsFirstSettled(s.trace, h.proc);
  }

  /** An exit event that has been queued or published quotes the readable exit time, and its
      status is the readable status exactly when it is that of the process's first exit: always
      for the first event about a process, and for a later one only if it repeats the status. */
  lemma ExitEventIsReadable(s: State, i: nat, first: nat)
    requires Inv(s) && first <= i < |s.handled| && s.handled[first].proc == s.handled[i].proc
    requires forall j | 0 <= j < first :: s.handled[j].proc != s.handled[first].proc
    ensures i < |ExitsOf(s.sent)| && ExitsOf(s.sent)[i] == ExitEvent(s.handled[i])
    ensures s.handled[i].proc in s.procs
    ensures var record := s.procs[s.handled[i].proc].record;
            && s.handled[i].at == record.exitedAt && record.exitedAt.Some? && record.closes == 1
            && (s.handled[i].status == record.status <==> s.handled[i].status == s.handled[first].status)
  {
    FirstHandledExitIsRecorded(s, first);
    ExitEventsAreHandledExits(s);
    var h := s.handled[i];
    var k := ExitOrder(s, i);
    var act := Segment(h)[|Segment(h)| - 1];
    assert s.trace[k..k + |Segment(h)|][|Segment(h)| - 1] == act == Sent(ExitEvent(h));
    assert s.trace[k + |Segment(h)| - 1] == act;
    assert ActOk(s.procs, act);
  }

  /** All readers agree: a Wait, or a Delete or State that began after the exit was recorded,
      returns the status and time of the process's first exit event. */
  lemma ReadersAgree(s: State, first: nat, rid: nat)
    requires Inv(s) && first < |s.handled|
    requires forall j | 0 <= j < first :: s.handled[j].proc != s.handled[first].proc
    requires rid in s.readers && s.readers[rid].proc == s.handled[first].proc
    requires s.readers[rid].sure && s.readers[rid].stage.Done?
    ensures s.readers[rid].stage == Done(s.handled[first].status, s.handled[first].at)
    ensures ExitEvent(s.handled[first]) in s.sent
  {
    ExitEventIsReadable(s, first, first);
    FirstHandledExitIsRecorded(s, first);
    assert ReaderOk(s.procs, s.readers[rid]);
    assert ExitsOf(s.sent)[first] in ExitsOf(s.sent);
    ExitsOfMember(s.sent, ExitEvent(s.handled[first]));
  }

  lemma {:induction false} ExitsOfMember(events: seq<Event>, e: Event)
    requires e in ExitsOf(events)
    ensures e in events
    decreases |events|
  {
    var n := |events| - 1;
    if e != events[n] { ExitsOfMember(events[..n], e); }
  }

  /** A reader that has got past the wait channel is sure, for good. */
  lemma WaitIsSure(s: State, rid: nat, proc: nat, more: seq<Action>)
    requires Inv(s) && rid in s.readers && s.readers[rid] == Reader(proc, false, Blocked)
    ensures var t := After(s, more);
            rid in t.readers && t.readers[rid].proc == proc && (t.readers[rid].stage.Blocked? || t.readers[rid].sure)
  {
    WaiterStaysSure(s, rid, more);
  }

  lemma {:induction false} WaiterStaysSure(s: State, rid: nat, more: seq<Action>)
    requires rid in s.readers && (s.readers[rid].stage.Blocked? || s.readers[rid].sure)
    ensures var t := After(s, more);
            && rid in t.readers && t.readers[rid].proc == s.readers[rid].proc
            && (t.readers[rid].stage.Blocked? || t.readers[rid].sure)
    decreases |more|
  {
    if more != [] { WaiterStaysSure(Next(s, more[0]), rid, more[1..]); }
  }

  /** An answer pairs a status with the exit time of a process that exited with another. */
  predicate Torn(s: State, rid: nat) {
    && rid in s.readers && s.readers[rid].proc in s.procs && s.readers[rid].stage.Done?
    && var record := s.procs[s.readers[rid].proc].record;
       s.readers[rid].stage.at.Some? && s.readers[rid].stage.at == record.exitedAt
       && s.readers[rid].stage.status != record.status
  }

  /** Every answer is one of three: that the process has not exited, what its exit was, or a
      torn one, and then it was begun before the exit, says 0, and the exit was not 0. */
  lemma AnswersAreWholeOrTorn(s: State, rid: nat)
    requires Inv(s) && rid in s.readers && s.readers[rid].stage.Done?
    ensures s.readers[rid].proc in s.procs
    ensures var (r, record) := (s.readers[rid], s.procs[s.readers[rid].proc].record);
            || r.stage == Done(0, None)
            || (record.exitedAt.Some? && r.stage == Done(record.status, record.exitedAt))
            || Torn(s, rid)
    ensures Torn(s, rid) ==>
              var (r, record) := (s.readers[rid], s.procs[s.readers[rid].proc].record);
              !r.sure && r.stage == Done(0, record.exitedAt) && record.status != 0
  {
    assert ReaderOk(s.procs, s.readers[rid]);
  }

  predicate TornAbout(s: State, rid: nat, status: int) {
    Torn(s, rid) && s.procs[s.readers[rid].proc].record.status == status
  }

  /** Without waiting first the two critical sections can straddle the exit: a torn answer about
      a process that exited with some status can be had if and only if that status is not 0. */
  lemma TornReadIff(status: int)
    ensures (exists actions, rid :: TornAbout(After(EmptyState(), actions), rid, status)) <==> status != 0
  {
    if status != 0 {
      TornRead(status);
      assert TornAbout(After(EmptyState(), TornSchedule(status)), 1, status);
    }
    if actions, rid :| TornAbout(After(EmptyState(), actions), rid, status) {
      ReachableInv(actions);
      AnswersAreWholeOrTorn(After(EmptyState(), actions), rid);
    }
  }

  /** The schedule: State reads the status, the process exits and is handled, State reads the
      time. */
  lemma TornRead(status: int)
    ensures var s := After(EmptyState(), TornSchedule(status));
            && 0 in s.procs && s.procs[0].record == ExitRecord(status, Some(0), 1)
            && 1 in s.readers && s.readers[1] == Reader(0, false, Done(0, Some(0)))
  {
    var h := TornSchedule(status);
    var s4 := TornBeforeExit(status);
    var s7 := TornAfterExit(status, s4);
    var s8 := Next(s7, h[7]);
    assert After(s8, h[8..]) == s8;
    AfterAt(s7, h, 7);
  }

  lemma TornAfterExit(status: int, s: State) returns (t: State)
    requires s.procs == map[0 := Proc("c", false, NEW_RECORD)] && s.containers == map["c" := [0]]
    requires s.readers == map[1 := Reader(0, false, ReadingTime(0))]
    requires s.exits == [] && s.thread == Idle && s.now == 0
    ensures After(s, TornSchedule(status)[4..]) == After(t, TornSchedule(status)[7..])
    ensures t.procs == map[0 := Proc("c", false, ExitRecord(status, Some(0), 1))] && t.readers == s.readers
  {
    var h := TornSchedule(status);
    var s5 := Next(s, h[4]);
    assert Registered(s5, "c", 0, s5.exits[0].id);
    var s6 := Next(s5, h[5]);
    t := Next(s6, h[6]);
    AfterAt(s6, h, 6);
    AfterAt(s5, h, 5);
    AfterAt(s, h, 4);
  }

  function TornSchedule(status: int): seq<Action> {
    [NewProcess(0, "c", false), SetRegistry(map["c" := [0]]), StartPeek(1, 0), ReaderStep(1),
     ProcessExits(Exit("c", status)), TakeFound("c", 0), ExitStep(false), ReaderStep(1)]
  }

  /** The reader has read the status, the process has not exited yet. */
  lemma TornBeforeExit(status: int) returns (s: State)
    ensures After(EmptyState(), TornSchedule(status)) == After(s, TornSchedule(status)[4..])
    ensures s.procs == map[0 := Proc("c", false, NEW_RECORD)] && s.containers == map["c" := [0]]
    ensures s.readers == map[1 := Reader(0, false, ReadingTime(0))]
    ensures s.exits == [] && s.thread == Idle && s.now == 0
  {
    var h := TornSchedule(status);
    var s1 := Next(EmptyState(), h[0]);
    var s2 := Next(s1, h[1]);
    var s3 := Next(s2, h[2]);
    s := Next(s3, h[3]);
    AfterAt(s3, h, 3);
    AfterAt(s2, h, 2);
    AfterAt(s1, h, 1);
    AfterAt(EmptyState(), h, 0);
    assert h[0..] == h;
  }

  lemma AfterAt(s: State, h: seq<Action>, k: nat)
    requires k < |h|
    ensures After(s, h[k..]) == After(Next(s, h[k]), h[k + 1..])
  {
    assert h[k..][0] == h[k] && h[k..][1..] == h[k + 1..];
  }
}
