/** Reconciling the lock file and publishing under leases (tools/stack.py:370-426, 454-551,
    582-642): a machine of atomic steps shared by any number of runs and outside actors. The
    imperative code of one run is in Releases. */
module Publishing {
  import opened Wrappers
  import opened Manifests
  import opened Chain
  import opened RefNames
  import opened Review

  /** The lock file on disk. `Empty` loads as None, as if the file were missing. */
  datatype LockFile = Absent | Empty | Holds(lock: Lock)

  type Refs = map<string, string>

  datatype Flags = Flags(dryRun: bool, writeLock: bool, allowRewrite: bool, skipFrozen: bool, checkRefs: bool)

  /** One invocation: its manifest, what it built (None when the build failed), its flags, and
      whether a `rebased` branch it names is missing from the fork. */
  datatype Job = Job(manifest: Manifest, built: Option<Lock>, flags: Flags, refsMissing: bool)

  /** One remote operation. `GiveUp` is an entry with nothing picked. */
  datatype Op = EnsureBase(ref: string, sha: string) | PushLeased(ref: string, sha: string) | GiveUp

  function Lookup(refs: Refs, ref: string): Option<string> {
    if ref in refs then Some(refs[ref]) else None
  }

  function MirrorOp(m: Manifest, lock: Lock, i: nat): Op
    requires i < |m.stack|
  {
    match MirrorTarget(m.stack[i], lock)
    case None => GiveUp
    case Some(sha) => PushLeased(MirrorRef(m, i + 1), sha)
  }

  function MirrorOps(m: Manifest, lock: Lock): seq<Op> {
    seq(|m.stack|, i requires 0 <= i < |m.stack| => MirrorOp(m, lock, i))
  }

  /** The remote operations of push_and_review, in order. */
  function Plan(m: Manifest, lock: Lock): seq<Op> {
    [EnsureBase(BaseRef(m), lock.baseSha)] + MirrorOps(m, lock) + [PushLeased(BranchRef(m), lock.branchSha)]
  }

  datatype Verdict = Pass | Write | Refuse

  /** What reconcile_lock decides before touching the file. */
  function Reconcile(disk: LockFile, rebuilt: Lock, flags: Flags): Verdict {
    if disk == Holds(rebuilt) then Pass
    else if !disk.Holds? then (if flags.writeLock then Write else Refuse)
    else if !flags.allowRewrite then Refuse
    else if flags.writeLock then Write else Pass
  }

  // --- One run, step by step ------------------------------------------------------------

  /** Where a run stands. `Leased` holds the value read a moment earlier. */
  datatype Phase =
    | Starting
    | Writing
    | Filling
    | Reading(next: nat)
    | Leased(next: nat, expected: Option<string>)
    | Stopped(code: int)

  datatype Config = Config(phase: Phase, disk: LockFile, refs: Refs)

  predicate Refused(job: Job) {
    || job.flags.checkRefs
    || (job.manifest.frozen && (job.flags.skipFrozen || !job.flags.allowRewrite))
    || job.built.None?
  }

  /** Exit code of a run that stops before building or for want of a build. */
  function RefusalCode(job: Job): int {
    if job.flags.checkRefs then (if job.refsMissing then 1 else 0)
    else if job.manifest.frozen && job.flags.skipFrozen then 0 else 1
  }

  function AfterReconcile(job: Job): Phase {
    if job.flags.dryRun then Stopped(0) else Reading(0)
  }

  /** A plain push: onto nothing, onto the same value, or as a fast-forward. */
  predicate PlainPushLands(ff: (string, string) -> bool, current: Option<string>, sha: string) {
    current.None? || current.value == sha || ff(current.value, sha)
  }

  /** A leased push: the ref is up to date already, or still holds what was read. */
  predicate LeasedPushLands(current: Option<string>, expected: Option<string>, sha: string) {
    current == Some(sha) || current == expected
  }

  /** One atomic step: one file write, one remote read, or one push. */
  function Step(job: Job, ff: (string, string) -> bool, c: Config): Config {
    if c.phase.Stopped? then c
    else if Refused(job) then c.(phase := Stopped(RefusalCode(job)))
    else
      var plan := Plan(job.manifest, job.built.value);
      match c.phase
      case Starting =>
        (match Reconcile(c.disk, job.built.value, job.flags)
         case Pass => c.(phase := AfterReconcile(job))
         case Write => c.(phase := Writing)
         case Refuse => c.(phase := Stopped(1)))
      case Writing => c.(phase := Filling, disk := Empty)
      case Filling => c.(phase := AfterReconcile(job), disk := Holds(job.built.value))
      case Reading(k) =>
        if k >= |plan| then c.(phase := Stopped(0))
        else (match plan[k]
              case GiveUp => c.(phase := Stopped(1))
              case PushLeased(ref, _) => c.(phase := Leased(k, Lookup(c.refs, ref)))
              case EnsureBase(ref, sha) =>
                if Lookup(c.refs, ref) == Some(sha) then c.(phase := Reading(k + 1))
                else if Lookup(c.refs, ref).None? then c.(phase := Leased(k, None))
                else c.(phase := Stopped(1)))
      case Leased(k, expected) =>
        if k >= |plan| || plan[k].GiveUp? then c.(phase := Stopped(1))
        else
          var (ref, sha) := (plan[k].ref, plan[k].sha);
          var lands := if plan[k].EnsureBase? then PlainPushLands(ff, Lookup(c.refs, ref), sha)
                       else LeasedPushLands(Lookup(c.refs, ref), expected, sha);
          if lands then c.(phase := Reading(k + 1), refs := c.refs[ref := sha])
          else c.(phase := Stopped(1))
  }

  // --- Any number of runs and outside actors --------------------------------------------

  datatype Run = Run(job: Job, phase: Phase)

  /** A push of ours that landed: who, where, what, and the value it replaced. */
  datatype Landed = Landed(run: nat, ref: string, sha: string, replaced: Option<string>)

  datatype State = State(disk: LockFile, refs: Refs, runs: map<nat, Run>, log: seq<Landed>)

  /** Start a run, let it take one step, stop it for good at whatever point it has reached,
      or let somebody else set the refs of the fork to anything at all. */
  datatype Action = Launch(id: nat, job: Job) | Advance(id: nat) | Crash(id: nat) | Outside(refs: Refs)

  function ConfigOf(s: State, id: nat): Config
    requires id in s.runs
  {
    Config(s.runs[id].phase, s.disk, s.refs)
  }

  /** The pushes that landed in a step: a run leaving `Leased` for the next operation. */
  function LandedBy(id: nat, job: Job, c: Config, d: Config): seq<Landed> {
    if c.phase.Leased? && d.phase.Reading? && job.built.Some? && c.phase.next < |Plan(job.manifest, job.built.value)|
       && !Plan(job.manifest, job.built.value)[c.phase.next].GiveUp?
    then
      var op := Plan(job.manifest, job.built.value)[c.phase.next];
      [Landed(id, op.ref, op.sha, Lookup(c.refs, op.ref))]
    else []
  }

  function Next(ff: (string, string) -> bool, s: State, a: Action): State {
    match a
    case Launch(id, job) => if id in s.runs then s else s.(runs := s.runs[id := Run(job, Starting)])
    case Crash(id) => if id in s.runs then s.(runs := s.runs[id := s.runs[id].(phase := Stopped(-1))]) else s
    case Outside(refs) => s.(refs := refs)
    case Advance(id) =>
      if id !in s.runs then s
      else
        var c := ConfigOf(s, id);
        var d := Step(s.runs[id].job, ff, c);
        State(d.disk, d.refs, s.runs[id := Run(s.runs[id].job, d.phase)], s.log + LandedBy(id, s.runs[id].job, c, d))
  }

  function After(ff: (string, string) -> bool, s: State, history: seq<Action>): State
    decreases |history|
  {
    if history == [] then s else After(ff, Next(ff, s, history[0]), history[1..])
  }

  /** A lock carries the manifest it was built from. */
  predicate WellBuilt(job: Job) {
    job.built.Some? ==>
      && job.built.value.tag == job.manifest.tag && job.built.value.base == job.manifest.base
      && job.built.value.branch == Branch(job.manifest)
  }

  predicate Cautious(a: Action) {
    a.Launch? ==> WellBuilt(a.job) && !a.job.flags.allowRewrite
  }

  predicate InGap(s: State, id: nat) {
    id in s.runs && (s.runs[id].phase.Writing? || s.runs[id].phase.Filling?)
  }

  /** No two runs stand between comparing the lock and having written it. */
  predicate OneWriter(s: State) {
    forall i, j | i in s.runs && j in s.runs && InGap(s, i) && InGap(s, j) :: i == j
  }

  /** Every state along a history has at most one run writing the lock. */
  predicate AlwaysOneWriter(ff: (string, string) -> bool, s: State, history: seq<Action>)
    decreases |history|
  {
    OneWriter(s) && (history == [] || AlwaysOneWriter(ff, Next(ff, s, history[0]), history[1..]))
  }

  /** What holds of one run in one state. */
  predicate RunOk(disk: LockFile, r: Run) {
    && WellBuilt(r.job) && !r.job.flags.allowRewrite
    && (r.phase.Writing? || r.phase.Filling? ==> !disk.Holds?)
    && (r.phase.Reading? || r.phase.Leased? ==> r.job.built.Some? && disk == Holds(r.job.built.value))
  }

  /** The tag makes the stack branch its own review base (RefNames.BranchIsBaseIff). */
  predicate OwnBase(lock: Lock) {
    lock.branch == "neev/base-" + lock.base
  }

  /** A push onto the stack branch carried the SHA the lock on disk promises; only where that
      branch is the base branch too, it may have been the push of the base. */
  predicate Promised(disk: LockFile, e: Landed) {
    && disk.Holds?
    && (e.ref == HEADS + disk.lock.branch ==>
          e.sha == disk.lock.branchSha || (OwnBase(disk.lock) && e.sha == disk.lock.baseSha))
  }

  ghost predicate Inv(s: State) {
    && (forall id | id in s.runs :: RunOk(s.disk, s.runs[id]))
    && (forall e | e in s.log :: Promised(s.disk, e))
  }

  /** Only the last operation of a plan writes the stack branch, unless that is the base. */
  lemma PlanRefs(m: Manifest, lock: Lock, k: nat)
    requires k < |Plan(m, lock)| && !Plan(m, lock)[k].GiveUp?
    ensures Plan(m, lock)[k].ref == BranchRef(m) ==>
              Plan(m, lock)[k].sha == lock.branchSha
              || (BranchRef(m) == BaseRef(m) && Plan(m, lock)[k].sha == lock.baseSha)
    ensures Plan(m, lock)[k].EnsureBase? <==> k == 0
    ensures k > 0 && BranchRef(m) != BaseRef(m) ==> Plan(m, lock)[k].ref != BaseRef(m)
  {
    if 0 < k <= |m.stack| {
      assert Plan(m, lock)[k] == MirrorOp(m, lock, k - 1);
      MirrorIsNoOtherRef(m, m, k);
    }
  }

  lemma OwnBaseIff(job: Job)
    requires WellBuilt(job) && job.built.Some?
    ensures BranchRef(job.manifest) == HEADS + job.built.value.branch
    ensures BranchRef(job.manifest) == BaseRef(job.manifest) <==> OwnBase(job.built.value)
  {
    assert BranchRef(job.manifest)[|HEADS|..] == Branch(job.manifest);
    assert BaseRef(job.manifest)[|HEADS|..] == BaseBranch(job.manifest);
  }

  lemma AdvanceKeepsInv(ff: (string, string) -> bool, s: State, id: nat)
    requires Inv(s) && OneWriter(s) && id in s.runs
    ensures Inv(Next(ff, s, Advance(id)))
    ensures s.disk.Holds? ==> Next(ff, s, Advance(id)).disk == s.disk
  {
    var t := Next(ff, s, Advance(id));
    var job := s.runs[id].job;
    var c := ConfigOf(s, id);
    var d := Step(job, ff, c);
    assert RunOk(s.disk, s.runs[id]);
    StepKeepsPromise(job, ff, c);
    forall i | i in t.runs ensures RunOk(t.disk, t.runs[i]) {
      if i != id {
        assert RunOk(s.disk, s.runs[i]);
        if d.disk != s.disk {
          assert InGap(s, id);
          assert !InGap(s, i);
        }
      }
    }
    forall e | e in t.log ensures Promised(t.disk, e) {
      if e in s.log {
        assert Promised(s.disk, e);
      } else {
        assert e in LandedBy(id, job, c, d);
        PlanRefs(job.manifest, job.built.value, c.phase.next);
        OwnBaseIff(job);
      }
    }
  }

  /** The file changes only in the gap, and a run leaves the gap with its lock on disk. */
  lemma StepKeepsPromise(job: Job, ff: (string, string) -> bool, c: Config)
    requires RunOk(c.disk, Run(job, c.phase))
    ensures var d := Step(job, ff, c);
            && RunOk(d.disk, Run(job, d.phase))
            && (c.disk.Holds? ==> d.disk == c.disk)
            && (d.disk != c.disk ==> c.phase.Writing? || c.phase.Filling?)
  {
  }

  /** One action of anybody keeps the invariant and a non-empty lock. */
  lemma NextKeepsInv(ff: (string, string) -> bool, s: State, a: Action)
    requires Inv(s) && OneWriter(s) && Cautious(a)
    ensures Inv(Next(ff, s, a))
    ensures s.disk.Holds? ==> Next(ff, s, a).disk == s.disk
  {
    var t := Next(ff, s, a);
    if a.Advance? && a.id in s.runs {
      AdvanceKeepsInv(ff, s, a.id);
    } else {
      forall i | i in t.runs ensures RunOk(t.disk, t.runs[i]) {
        if i in s.runs { assert RunOk(s.disk, s.runs[i]); }
      }
      assert forall e | e in t.log :: Promised(s.disk, e);
    }
  }

  /** Whole-history immutability and crash safety: any number of runs without
      --allow-rewrite, building anything at all, stopped anywhere, interleaved with arbitrary
      changes to the fork, at most one of them writing the lock at a time. A non-empty lock
      never changes, and in every state on the way (`history` is any prefix) every value ever
      put on the stack branch is the branch_sha of the lock on disk. */
  lemma {:induction false} HistoryKeepsPromise(ff: (string, string) -> bool, s: State, history: seq<Action>)
    requires Inv(s) && AlwaysOneWriter(ff, s, history)
    requires forall a | a in history :: Cautious(a)
    ensures Inv(After(ff, s, history))
    ensures s.disk.Holds? ==> After(ff, s, history).disk == s.disk
    decreases |history|
  {
    if history != [] {
      assert history[0] in history;
      NextKeepsInv(ff, s, history[0]);
      HistoryKeepsPromise(ff, Next(ff, s, history[0]), history[1..]);
    }
  }

  /** Once a lock is committed no exclusion between runs is needed at all. */
  lemma {:induction false} CommittedLockNeedsNoExclusion(ff: (string, string) -> bool, s: State, history: seq<Action>)
    requires Inv(s) && s.disk.Holds?
    requires forall a | a in history :: Cautious(a)
    ensures AlwaysOneWriter(ff, s, history)
    ensures Inv(After(ff, s, history)) && After(ff, s, history).disk == s.disk
    decreases |history|
  {
    forall i | i in s.runs ensures !InGap(s, i) { assert RunOk(s.disk, s.runs[i]); }
    assert OneWriter(s);
    if history != [] {
      assert history[0] in history;
      NextKeepsInv(ff, s, history[0]);
      CommittedLockNeedsNoExclusion(ff, Next(ff, s, history[0]), history[1..]);
    }
  }

  /** Any two pushes of the stack branch in one history carry the same SHA, unless the branch is
      its own base. */
  lemma StackPushesAgree(ff: (string, string) -> bool, s: State, history: seq<Action>, e: Landed, f: Landed)
    requires Inv(s) && AlwaysOneWriter(ff, s, history)
    requires forall a | a in history :: Cautious(a)
    requires e in After(ff, s, history).log && f in After(ff, s, history).log
    requires var disk := After(ff, s, history).disk;
             disk.Holds? ==> e.ref == f.ref == HEADS + disk.lock.branch
    ensures After(ff, s, history).disk.Holds?
    ensures var lock := After(ff, s, history).disk.lock;
            !OwnBase(lock) ==> e.sha == f.sha == lock.branchSha
  {
    HistoryKeepsPromise(ff, s, history);
    assert Promised(After(ff, s, history).disk, e) && Promised(After(ff, s, history).disk, f);
  }

  lemma {:induction false} AfterConcat(ff: (string, string) -> bool, s: State, g: seq<Action>, h: seq<Action>)
    ensures After(ff, s, g + h) == After(ff, After(ff, s, g), h)
    decreases |g|
  {
    if g == [] {
      assert g + h == h;
    } else {
      assert (g + h)[1..] == g[1..] + h;
      AfterConcat(ff, Next(ff, s, g[0]), g[1..], h);
    }
  }

  lemma AfterSnoc(ff: (string, string) -> bool, s: State, h: seq<Action>, a: Action)
    ensures After(ff, s, h + [a]) == Next(ff, After(ff, s, h), a)
  {
    AfterConcat(ff, s, h, [a]);
    assert [a][1..] == [];
  }

  lemma AfterTwo(ff: (string, string) -> bool, s: State, a: Action, b: Action)
    ensures After(ff, s, [a, b]) == Next(ff, Next(ff, s, a), b)
  {
    AfterSnoc(ff, s, [a], b);
    AfterSnoc(ff, s, [], a);
    assert [a] + [b] == [a, b] && [] + [a] == [a];
  }

  // --- Which sets of runs are safe together ---------------------------------------------

  /** A run that will write a lock that is not committed yet. */
  predicate Writes(job: Job) {
    !Refused(job) && job.flags.writeLock
  }

  predicate AtMostOneWrites(jobs: map<nat, Job>) {
    forall i, j | i in jobs && j in jobs && Writes(jobs[i]) && Writes(jobs[j]) :: i == j
  }

  /** The only runs launched are these, under these names. */
  predicate LaunchesOf(jobs: map<nat, Job>, history: seq<Action>) {
    forall a | a in history && a.Launch? :: a.id in jobs && a.job == jobs[a.id]
  }

  function Launchable(disk: LockFile, refs: Refs): State {
    State(disk, refs, map[], [])
  }

  /** After `h`, `a` leaves a non-empty lock alone, and what has been pushed is promised. */
  ghost predicate KeepsPromise(ff: (string, string) -> bool, s: State, h: seq<Action>, a: Action) {
    var t := After(ff, s, h);
    && (t.disk.Holds? ==> Next(ff, t, a).disk == t.disk)
    && forall e | e in t.log :: Promised(t.disk, e)
  }

  /** Every run is one of the jobs, and only a writer is in the gap. */
  predicate RunsOf(jobs: map<nat, Job>, s: State) {
    forall id | id in s.runs ::
      id in jobs && s.runs[id].job == jobs[id] && (InGap(s, id) ==> Writes(jobs[id]))
  }

  /** With at most one writer among the jobs, no two runs are ever in the gap together. */
  lemma {:induction false} OneWriterSuffices(
      ff: (string, string) -> bool, jobs: map<nat, Job>, s: State, history: seq<Action>)
    requires AtMostOneWrites(jobs) && RunsOf(jobs, s) && LaunchesOf(jobs, history)
    ensures AlwaysOneWriter(ff, s, history) && OneWriter(After(ff, s, history))
    decreases |history|
  {
    assert OneWriter(s);
    if history != [] {
      assert history[0] in history;
      NextRunsOf(ff, jobs, s, history[0]);
      OneWriterSuffices(ff, jobs, Next(ff, s, history[0]), history[1..]);
    }
  }

  lemma NextRunsOf(ff: (string, string) -> bool, jobs: map<nat, Job>, s: State, a: Action)
    requires RunsOf(jobs, s) && (a.Launch? ==> a.id in jobs && a.job == jobs[a.id])
    ensures RunsOf(jobs, Next(ff, s, a))
  {
    var t := Next(ff, s, a);
    forall id | id in t.runs
      ensures id in jobs && t.runs[id].job == jobs[id] && (InGap(t, id) ==> Writes(jobs[id]))
    {
      assert id in s.runs ==> (InGap(s, id) ==> Writes(jobs[id]));
    }
  }

  /** Two writers together: both compare, the first writes, the second truncates. */
  function Overwriting(i: nat, a: Job, j: nat, b: Job): seq<Action> {
    [Launch(i, a), Launch(j, b), Advance(i), Advance(j)] + [Advance(i), Advance(i)]
  }

  lemma BothCompared(ff: (string, string) -> bool, disk: LockFile, refs: Refs, i: nat, a: Job, j: nat, b: Job)
    requires i != j && Writes(a) && Writes(b) && !disk.Holds?
    ensures After(ff, Launchable(disk, refs), [Launch(i, a), Launch(j, b), Advance(i), Advance(j)]) ==
            State(disk, refs, map[i := Run(a, Writing), j := Run(b, Writing)], [])
  {
    var s := Launchable(disk, refs);
    AfterTwo(ff, s, Launch(i, a), Launch(j, b));
    var launched := After(ff, s, [Launch(i, a), Launch(j, b)]);
    assert launched.runs == map[i := Run(a, Starting), j := Run(b, Starting)];
    AfterTwo(ff, launched, Advance(i), Advance(j));
    AfterConcat(ff, s, [Launch(i, a), Launch(j, b)], [Advance(i), Advance(j)]);
    assert [Launch(i, a), Launch(j, b)] + [Advance(i), Advance(j)] ==
           [Launch(i, a), Launch(j, b), Advance(i), Advance(j)];
  }

  lemma OverwritingState(
      ff: (string, string) -> bool, disk: LockFile, refs: Refs, i: nat, a: Job, j: nat, b: Job)
    requires i != j && Writes(a) && Writes(b) && !disk.Holds?
    ensures After(ff, Launchable(disk, refs), Overwriting(i, a, j, b)) ==
            State(Holds(a.built.value), refs, map[i := Run(a, AfterReconcile(a)), j := Run(b, Writing)], [])
  {
    var s := Launchable(disk, refs);
    var compared := [Launch(i, a), Launch(j, b), Advance(i), Advance(j)];
    BothCompared(ff, disk, refs, i, a, j, b);
    AfterConcat(ff, s, compared, [Advance(i), Advance(i)]);
    var t := After(ff, s, compared);
    AfterTwo(ff, t, Advance(i), Advance(i));
    var u := Next(ff, t, Advance(i));
    assert u == State(Empty, refs, map[i := Run(a, Filling), j := Run(b, Writing)], []);
  }

  /** Which runs are safe together. Take any runs without --allow-rewrite over one lock file,
      and every interleaving of them with crashes and outside actors: a non-empty lock never
      changes and every stack branch pushed is the one the lock on disk promises, if and only if
      a lock is committed at the start or at most one of the runs is to write it. */
  lemma PromiseHoldsIff(ff: (string, string) -> bool, disk: LockFile, refs: Refs, jobs: map<nat, Job>)
    requires forall id | id in jobs :: WellBuilt(jobs[id]) && !jobs[id].flags.allowRewrite
    ensures (forall h, a | LaunchesOf(jobs, h + [a]) :: KeepsPromise(ff, Launchable(disk, refs), h, a))
            <==> disk.Holds? || AtMostOneWrites(jobs)
  {
    if disk.Holds? || AtMostOneWrites(jobs) {
      forall h, a | LaunchesOf(jobs, h + [a])
        ensures KeepsPromise(ff, Launchable(disk, refs), h, a)
      {
        SafeTogether(ff, disk, refs, jobs, h, a);
      }
    } else {
      var h, a := UnsafeTogether(ff, disk, refs, jobs);
    }
  }

  lemma UnsafeTogether(ff: (string, string) -> bool, disk: LockFile, refs: Refs, jobs: map<nat, Job>)
    returns (h: seq<Action>, a: Action)
    requires !disk.Holds? && !AtMostOneWrites(jobs)
    ensures LaunchesOf(jobs, h + [a]) && !KeepsPromise(ff, Launchable(disk, refs), h, a)
  {
    var i, j :| i in jobs && j in jobs && Writes(jobs[i]) && Writes(jobs[j]) && i != j;
    h, a := Overwriting(i, jobs[i], j, jobs[j]), Advance(j);
    OverwritingState(ff, disk, refs, i, jobs[i], j, jobs[j]);
  }

  lemma SafeTogether(ff: (string, string) -> bool, disk: LockFile, refs: Refs, jobs: map<nat, Job>,
                     h: seq<Action>, a: Action)
    requires forall id | id in jobs :: WellBuilt(jobs[id]) && !jobs[id].flags.allowRewrite
    requires LaunchesOf(jobs, h + [a]) && (disk.Holds? || AtMostOneWrites(jobs))
    ensures KeepsPromise(ff, Launchable(disk, refs), h, a)
  {
    var s := Launchable(disk, refs);
    assert forall b | b in h :: b in h + [a];
    assert a in h + [a];
    if disk.Holds? {
      CommittedLockNeedsNoExclusion(ff, s, h);
      CommittedLockNeedsNoExclusion(ff, After(ff, s, h), [a]);
    } else {
      OneWriterSuffices(ff, jobs, s, h);
      HistoryKeepsPromise(ff, s, h);
    }
    NextKeepsInv(ff, After(ff, s, h), a);
  }

  /** A publication that nobody disturbs logs a push of the stack branch. */
  lemma {:induction false} PublishesAlone(ff: (string, string) -> bool, s: State, id: nat, k: nat)
    returns (h: seq<Action>)
    requires id in s.runs && s.runs[id].phase == Reading(k) && !Refused(s.runs[id].job)
    requires var job := s.runs[id].job;
             var plan := Plan(job.manifest, job.built.value);
             && k < |plan| && (k == 0 ==> Lookup(s.refs, BaseRef(job.manifest)).None?)
             && forall e | e in job.manifest.stack :: MirrorTarget(e, job.built.value).Some?
    ensures forall a | a in h :: a == Advance(id)
    ensures var t := After(ff, s, h);
            var job := s.runs[id].job;
            && t.disk == s.disk && id in t.runs && t.runs == s.runs[id := t.runs[id]]
            && exists e :: e in t.log && e.ref == BranchRef(job.manifest) && e.sha == job.built.value.branchSha
    decreases |s.runs[id].job.manifest.stack| + 2 - k
  {
    var job := s.runs[id].job;
    var plan := Plan(job.manifest, job.built.value);
    PlanNeverGivesUp(job, k);
    var t := Next(ff, Next(ff, s, Advance(id)), Advance(id));
    var landed := Landed(id, plan[k].ref, plan[k].sha, Lookup(s.refs, plan[k].ref));
    OperationLands(ff, s, id, k);
    AfterTwo(ff, s, Advance(id), Advance(id));
    if k == |plan| - 1 {
      h := [Advance(id), Advance(id)];
      assert landed in t.log;
    } else {
      var rest := PublishesAlone(ff, t, id, k + 1);
      h := [Advance(id), Advance(id)] + rest;
      AfterConcat(ff, s, [Advance(id), Advance(id)], rest);
    }
  }

  lemma PlanNeverGivesUp(job: Job, k: nat)
    requires job.built.Some? && k < |Plan(job.manifest, job.built.value)|
    requires forall e | e in job.manifest.stack :: MirrorTarget(e, job.built.value).Some?
    ensures var op := Plan(job.manifest, job.built.value)[k];
            !op.GiveUp? && (op.EnsureBase? ==> k == 0 && op.ref == BaseRef(job.manifest))
    ensures k == |Plan(job.manifest, job.built.value)| - 1 ==>
              Plan(job.manifest, job.built.value)[k] == PushLeased(BranchRef(job.manifest), job.built.value.branchSha)
  {
    if 0 < k <= |job.manifest.stack| {
      assert Plan(job.manifest, job.built.value)[k] == MirrorOp(job.manifest, job.built.value, k - 1);
      assert job.manifest.stack[k - 1] in job.manifest.stack;
    }
  }

  /** Read and push, with nobody in between. */
  lemma OperationLands(ff: (string, string) -> bool, s: State, id: nat, k: nat)
    requires id in s.runs && s.runs[id].phase == Reading(k) && !Refused(s.runs[id].job)
    requires var job := s.runs[id].job;
             && k < |Plan(job.manifest, job.built.value)| && !Plan(job.manifest, job.built.value)[k].GiveUp?
             && var op := Plan(job.manifest, job.built.value)[k];
                op.EnsureBase? ==> Lookup(s.refs, op.ref).None?
    ensures var job := s.runs[id].job;
            var op := Plan(job.manifest, job.built.value)[k];
            Next(ff, Next(ff, s, Advance(id)), Advance(id)) ==
            State(s.disk, s.refs[op.ref := op.sha], s.runs[id := Run(job, Reading(k + 1))],
                  s.log + [Landed(id, op.ref, op.sha, Lookup(s.refs, op.ref))])
  {
    var u := Next(ff, s, Advance(id));
    var job := s.runs[id].job;
    var op := Plan(job.manifest, job.built.value)[k];
    assert u == s.(runs := s.runs[id := Run(job, Leased(k, Lookup(s.refs, op.ref)))]);
  }

  /** And what can come of it: two first-time writers of one branch that built different
      stacks, the first of them publishing. Whatever the fork holds, the stack branch is pushed
      with a SHA that is not the one the lock ends up recording. */
  lemma TwoWritersDiverge(ff: (string, string) -> bool, disk: LockFile, refs: Refs, a: Job, b: Job)
    returns (h: seq<Action>)
    requires Writes(a) && Writes(b) && WellBuilt(a) && WellBuilt(b) && !disk.Holds?
    requires !a.flags.dryRun && forall e | e in a.manifest.stack :: MirrorTarget(e, a.built.value).Some?
    requires Branch(a.manifest) == Branch(b.manifest)
    requires a.built.value.branchSha != b.built.value.branchSha
    ensures LaunchesOf(map[0 := a, 1 := b], h)
    ensures var t := After(ff, Launchable(disk, refs), h);
            && t.disk == Holds(b.built.value)
            && exists e :: e in t.log && e.ref == HEADS + t.disk.lock.branch && e.sha != t.disk.lock.branchSha
  {
    var s := Launchable(disk, refs);
    var start := Overwriting(0, a, 1, b) + [Outside(map[])];
    OverwritingState(ff, disk, refs, 0, a, 1, b);
    AfterSnoc(ff, s, Overwriting(0, a, 1, b), Outside(map[]));
    var written := After(ff, s, start);
    var rest := PublishThenOverwrite(ff, written, a, b);
    h := start + rest;
    AfterConcat(ff, s, start, rest);
  }

  /** The first run publishes, then the second writes. */
  lemma PublishThenOverwrite(ff: (string, string) -> bool, s: State, a: Job, b: Job) returns (h: seq<Action>)
    requires s.runs == map[0 := Run(a, Reading(0)), 1 := Run(b, Writing)] && s.refs == map[]
    requires Writes(a) && Writes(b) && forall e | e in a.manifest.stack :: MirrorTarget(e, a.built.value).Some?
    ensures forall x | x in h :: x.Advance?
    ensures var t := After(ff, s, h);
            && t.disk == Holds(b.built.value)
            && exists e :: e in t.log && e.ref == BranchRef(a.manifest) && e.sha == a.built.value.branchSha
  {
    var pushes := PublishesAlone(ff, s, 0, 0);
    var t := After(ff, s, pushes);
    assert t.runs[1] == Run(b, Writing);
    FillsLock(ff, t, 1);
    h := pushes + [Advance(1), Advance(1)];
    AfterConcat(ff, s, pushes, [Advance(1), Advance(1)]);
  }

  /** A run in the gap writes its lock, whatever has been pushed meanwhile. */
  lemma FillsLock(ff: (string, string) -> bool, s: State, id: nat)
    requires id in s.runs && s.runs[id].phase == Writing && !Refused(s.runs[id].job)
    ensures var t := After(ff, s, [Advance(id), Advance(id)]);
            t.disk == Holds(s.runs[id].job.built.value) && t.log == s.log
  {
    AfterTwo(ff, s, Advance(id), Advance(id));
  }

  // --- Frozen manifests -----------------------------------------------------------------

  /** A run that is only to check refs, or that steps over or refuses a frozen manifest, or
      whose build fails. */
  predicate Idle(job: Job) {
    || job.flags.checkRefs
    || (job.manifest.frozen && job.flags.skipFrozen)
    || (job.manifest.frozen && !job.flags.allowRewrite)
    || job.built.None?
  }

  ghost predicate AllIdle(s: State) {
    forall id | id in s.runs :: Idle(s.runs[id].job)
  }

  /** The refs as outside actors alone would have left them. */
  function OutsideOnly(refs: Refs, history: seq<Action>): Refs
    decreases |history|
  {
    if history == [] then refs
    else OutsideOnly(if history[0].Outside? then history[0].refs else refs, history[1..])
  }

  /** Runs that only check refs, runs of a frozen manifest without --allow-rewrite or with
      --skip-frozen, and runs whose build fails change neither the lock nor the fork. */
  lemma {:induction false} IdleRunsChangeNothing(ff: (string, string) -> bool, s: State, history: seq<Action>)
    requires AllIdle(s) && forall a | a in history && a.Launch? :: Idle(a.job)
    ensures var t := After(ff, s, history);
            t.disk == s.disk && t.log == s.log && t.refs == OutsideOnly(s.refs, history)
    decreases |history|
  {
    if history != [] {
      var a := history[0];
      assert a in history;
      var t := Next(ff, s, a);
      if a.Advance? && a.id in s.runs { assert Idle(s.runs[a.id].job); }
      forall i | i in t.runs ensures Idle(t.runs[i].job) {
        if i in s.runs { assert Idle(s.runs[i].job); }
      }
      IdleRunsChangeNothing(ff, t, history[1..]);
    }
  }

  // --- Leases ---------------------------------------------------------------------------

  predicate IsMirror(m: Manifest, ref: string, i: nat) {
    ref == MirrorRef(m, i + 1)
  }

  /** The refs a job may write. */
  predicate Owns(job: Job, ref: string) {
    || ref == BaseRef(job.manifest) || ref == BranchRef(job.manifest)
    || exists i: nat :: i < |job.manifest.stack| && IsMirror(job.manifest, ref, i)
  }

  /** One step of a run, whatever others did since its last one: it changes at most one ref,
      one of its own, and only where that ref still holds the leased value or its own already
      (for the base: nothing, or what it fast-forwards); a push that does not land changes nothing
      and stops the run. LandedReplacesWhatWasRead ties the leased value to the read. */
  lemma StepRespectsLease(job: Job, ff: (string, string) -> bool, c: Config)
    ensures var d := Step(job, ff, c);
            || d.refs == c.refs
            || (&& c.phase.Leased? && d.phase.Reading? && job.built.Some?
                && c.phase.next < |Plan(job.manifest, job.built.value)|
                && var op := Plan(job.manifest, job.built.value)[c.phase.next];
                   && !op.GiveUp? && Owns(job, op.ref) && d.refs == c.refs[op.ref := op.sha]
                   && var current := Lookup(c.refs, op.ref);
                      if op.EnsureBase? then current in {None, Some(op.sha)} || ff(current.value, op.sha)
                      else current in {c.phase.expected, Some(op.sha)})
    ensures var d := Step(job, ff, c);
            c.phase.Leased? ==> d.phase.Reading? || (d.phase.Stopped? && d.refs == c.refs && d.disk == c.disk)
  {
    if c.phase.Leased? && !Refused(job) {
      var plan := Plan(job.manifest, job.built.value);
      var k := c.phase.next;
      if k < |plan| && !plan[k].GiveUp? { PlanIsOwned(job, k); }
    }
  }

  lemma PlanIsOwned(job: Job, k: nat)
    requires job.built.Some? && k < |Plan(job.manifest, job.built.value)|
    requires !Plan(job.manifest, job.built.value)[k].GiveUp?
    ensures Owns(job, Plan(job.manifest, job.built.value)[k].ref)
  {
    var m := job.manifest;
    if 0 < k <= |m.stack| {
      assert Plan(m, job.built.value)[k] == MirrorOp(m, job.built.value, k - 1);
      assert IsMirror(m, Plan(m, job.built.value)[k].ref, k - 1);
    }
  }

  /** Over a whole history a ref that no launched job owns holds what outside actors put
      there. */
  lemma {:induction false} ForeignRefsUntouched(
      ff: (string, string) -> bool, s: State, history: seq<Action>, ref: string)
    requires forall id | id in s.runs :: !Owns(s.runs[id].job, ref)
    requires forall a | a in history && a.Launch? :: !Owns(a.job, ref)
    ensures Lookup(After(ff, s, history).refs, ref) == Lookup(OutsideOnly(s.refs, history), ref)
    decreases |history|
  {
    if history != [] {
      var a := history[0];
      assert a in history;
      var t := Next(ff, s, a);
      if a.Advance? && a.id in s.runs {
        StepRespectsLease(s.runs[a.id].job, ff, ConfigOf(s, a.id));
      }
      ForeignRefsUntouched(ff, t, history[1..], ref);
      OutsideOnlyCongruent(t.refs, if a.Outside? then a.refs else s.refs, history[1..], ref);
    }
  }

  lemma {:induction false} OutsideOnlyCongruent(p: Refs, q: Refs, history: seq<Action>, ref: string)
    requires Lookup(p, ref) == Lookup(q, ref)
    ensures Lookup(OutsideOnly(p, history), ref) == Lookup(OutsideOnly(q, history), ref)
    decreases |history|
  {
    if history != [] {
      if history[0].Outside? {
        OutsideOnlyCongruent(history[0].refs, history[0].refs, history[1..], ref);
      } else {
        OutsideOnlyCongruent(p, q, history[1..], ref);
      }
    }
  }

  /** At step i of `h` the run reads the ref of its k-th operation; before step j it does
      nothing more. */
  predicate ReadAt(ff: (string, string) -> bool, s: State, h: seq<Action>, i: nat, j: nat, k: nat, id: nat) {
    && i < j <= |h| && h[i] == Advance(id) && (forall m | i < m < j :: h[m] != Advance(id))
    && var t := After(ff, s, h[..i]);
       && id in t.runs && t.runs[id].phase == Reading(k) && t.runs[id].job.built.Some?
       && var job := t.runs[id].job;
          k < |Plan(job.manifest, job.built.value)| && !Plan(job.manifest, job.built.value)[k].GiveUp?
  }

  /** Entry `e` of the log of a history: its run read the ref at step i and pushed it at step j,
      its own next step. What was replaced is what stood there at the push; it is what stood
      there at the read, or the run's own value already. The base is pushed only where nothing
      was read, and by a push that forces nothing. */
  predicate ReadThenPushed(
      ff: (string, string) -> bool, s: State, h: seq<Action>, i: nat, j: nat, k: nat, e: Landed) {
    && j < |h| && h[j] == Advance(e.run) && ReadAt(ff, s, h, i, j, k, e.run)
    && var job := After(ff, s, h[..i]).runs[e.run].job;
       var op := Plan(job.manifest, job.built.value)[k];
       && e.ref == op.ref && e.sha == op.sha
       && LeaseRespected(ff, op, Lookup(After(ff, s, h[..i]).refs, op.ref), Lookup(After(ff, s, h[..j]).refs, op.ref),
                         e.replaced, Lookup(After(ff, s, h[..j + 1]).refs, op.ref))
  }

  predicate LeaseRespected(ff: (string, string) -> bool, op: Op, read: Option<string>, before: Option<string>,
                           replaced: Option<string>, after: Option<string>)
    requires !op.GiveUp?
  {
    && replaced == before && after == Some(op.sha)
    && if op.EnsureBase? then read.None? && (replaced in {None, Some(op.sha)} || ff(replaced.value, op.sha))
       else replaced == read || replaced == Some(op.sha)
  }

  predicate HoldsReading(ff: (string, string) -> bool, s: State, h: seq<Action>, i: nat, id: nat, r: Run) {
    && r.phase.Leased? && ReadAt(ff, s, h, i, |h|, r.phase.next, id)
    && var t := After(ff, s, h[..i]);
       var op := Plan(t.runs[id].job.manifest, t.runs[id].job.built.value)[r.phase.next];
       && t.runs[id].job == r.job && Lookup(t.refs, op.ref) == r.phase.expected
       && (op.EnsureBase? ==> r.phase.expected.None?)
  }

  /** A run that holds a lease has read it: the value is what stood there then. */
  ghost predicate LeaseWasRead(ff: (string, string) -> bool, s: State, h: seq<Action>, id: nat) {
    var t := After(ff, s, h);
    id in t.runs && t.runs[id].phase.Leased? ==>
      exists i: nat :: HoldsReading(ff, s, h, i, id, t.runs[id])
  }

  ghost predicate EntryWasRead(ff: (string, string) -> bool, s: State, h: seq<Action>, e: Landed) {
    exists i: nat, j: nat, k: nat :: ReadThenPushed(ff, s, h, i, j, k, e)
  }

  lemma PrefixOfSnoc(h: seq<Action>, a: Action, i: nat)
    requires i <= |h|
    ensures (h + [a])[..i] == h[..i]
  {
  }

  lemma PushStays(ff: (string, string) -> bool, s: State, h: seq<Action>, a: Action, i: nat, j: nat, k: nat, e: Landed)
    requires ReadThenPushed(ff, s, h, i, j, k, e)
    ensures ReadThenPushed(ff, s, h + [a], i, j, k, e)
  {
    PrefixOfSnoc(h, a, i);
    PrefixOfSnoc(h, a, j);
    PrefixOfSnoc(h, a, j + 1);
  }

  lemma EntryStays(ff: (string, string) -> bool, s: State, h: seq<Action>, a: Action, e: Landed)
    requires EntryWasRead(ff, s, h, e)
    ensures EntryWasRead(ff, s, h + [a], e)
  {
    var i: nat, j: nat, k: nat :| ReadThenPushed(ff, s, h, i, j, k, e);
    PushStays(ff, s, h, a, i, j, k, e);
  }

  lemma ReadingStays(ff: (string, string) -> bool, s: State, h: seq<Action>, a: Action, i: nat, id: nat, r: Run)
    requires HoldsReading(ff, s, h, i, id, r) && a != Advance(id)
    ensures HoldsReading(ff, s, h + [a], i, id, r)
  {
    PrefixOfSnoc(h, a, i);
  }

  lemma LeaseIsRead(ff: (string, string) -> bool, s: State, h: seq<Action>, id: nat)
    requires var t := After(ff, s, h);
             id in t.runs && Next(ff, t, Advance(id)).runs[id].phase.Leased?
    ensures HoldsReading(ff, s, h + [Advance(id)], |h|, id, Next(ff, After(ff, s, h), Advance(id)).runs[id])
  {
    PrefixOfSnoc(h, Advance(id), |h|);
    assert h[..|h|] == h;
  }

  /** A run takes a lease by reading, and only then. */
  lemma LeaseIsTaken(ff: (string, string) -> bool, s: State, h: seq<Action>, a: Action, id: nat)
    requires LeaseWasRead(ff, s, h, id)
    ensures LeaseWasRead(ff, s, h + [a], id)
  {
    AfterSnoc(ff, s, h, a);
    var before, after := After(ff, s, h), Next(ff, After(ff, s, h), a);
    if id in after.runs && after.runs[id].phase.Leased? {
      if a == Advance(id) {
        LeaseIsRead(ff, s, h, id);
      } else {
        LeaseIsKept(ff, before, a, id);
        var i: nat :| HoldsReading(ff, s, h, i, id, before.runs[id]);
        ReadingStays(ff, s, h, a, i, id, before.runs[id]);
      }
    }
  }

  lemma LeaseIsKept(ff: (string, string) -> bool, s: State, a: Action, id: nat)
    requires id in Next(ff, s, a).runs && Next(ff, s, a).runs[id].phase.Leased? && a != Advance(id)
    ensures id in s.runs && Next(ff, s, a).runs[id] == s.runs[id]
  {
  }

  /** What an action adds to the log. */
  function Added(ff: (string, string) -> bool, s: State, a: Action): seq<Landed> {
    if a.Advance? && a.id in s.runs then
      LandedBy(a.id, s.runs[a.id].job, ConfigOf(s, a.id), Step(s.runs[a.id].job, ff, ConfigOf(s, a.id)))
    else []
  }

  /** A push that lands was read by its run's step before. */
  lemma PushWasRead(ff: (string, string) -> bool, s: State, h: seq<Action>, a: Action, e: Landed)
    requires a.Advance? && LeaseWasRead(ff, s, h, a.id) && e in Added(ff, After(ff, s, h), a)
    ensures EntryWasRead(ff, s, h + [a], e)
  {
    var t := After(ff, s, h);
    var r := t.runs[a.id];
    var i: nat :| HoldsReading(ff, s, h, i, a.id, r);
    PushIsRespected(ff, s, h, a, e, i);
    assert ReadThenPushed(ff, s, h + [a], i, |h|, r.phase.next, e);
  }

  lemma PushIsRespected(ff: (string, string) -> bool, s: State, h: seq<Action>, a: Action, e: Landed, i: nat)
    requires a.Advance? && a.id in After(ff, s, h).runs && e in Added(ff, After(ff, s, h), a)
    requires HoldsReading(ff, s, h, i, a.id, After(ff, s, h).runs[a.id])
    ensures ReadThenPushed(ff, s, h + [a], i, |h|, After(ff, s, h).runs[a.id].phase.next, e)
  {
    AfterSnoc(ff, s, h, a);
    PrefixOfSnoc(h, a, i);
    PrefixOfSnoc(h, a, |h|);
    assert h[..|h|] == h && (h + [a])[..|h| + 1] == h + [a];
  }

  /** Lease safety over every history of runs, crashes and outside actors: each push that ever
      landed replaced exactly the value its run had read, or found its own value there. */
  lemma {:induction false} LandedReplacesWhatWasRead(ff: (string, string) -> bool, s: State, h: seq<Action>)
    requires s.runs == map[] && s.log == []
    ensures forall id :: LeaseWasRead(ff, s, h, id)
    ensures forall e | e in After(ff, s, h).log :: EntryWasRead(ff, s, h, e)
    decreases |h|
  {
    if h != [] {
      var g, a := h[..|h| - 1], h[|h| - 1];
      assert h == g + [a];
      LandedReplacesWhatWasRead(ff, s, g);
      AfterSnoc(ff, s, g, a);
      forall id ensures LeaseWasRead(ff, s, h, id) { LeaseIsTaken(ff, s, g, a, id); }
      forall e | e in After(ff, s, h).log ensures EntryWasRead(ff, s, h, e) {
        if e in After(ff, s, g).log {
          EntryStays(ff, s, g, a, e);
        } else {
          assert e in Added(ff, After(ff, s, g), a);
          PushWasRead(ff, s, g, a, e);
        }
      }
    }
  }

  // --- Inputs outlive the branch ----------------------------------------------------------

  /** Among the first `n` pushes of the log is one by this run of this value to this ref. */
  predicate LandedBefore(log: seq<Landed>, n: nat, id: nat, ref: string, sha: string) {
    exists y :: 0 <= y < n && y < |log| && log[y].run == id && log[y].ref == ref && log[y].sha == sha
  }

  /** The run has pushed the mirror of the i-th entry among the first `n` pushes. */
  predicate Mirrored(log: seq<Landed>, n: nat, id: nat, job: Job, i: nat)
    requires i < |job.manifest.stack|
  {
    && job.built.Some? && MirrorTarget(job.manifest.stack[i], job.built.value).Some?
    && var target := MirrorTarget(job.manifest.stack[i], job.built.value).value;
       LandedBefore(log, n, id, MirrorRef(job.manifest, i + 1), target)
  }

  /** A run that has come to its k-th operation has pushed the mirrors before it. */
  predicate InOrder(log: seq<Landed>, id: nat, r: Run) {
    AtOperation(r.phase) ==>
      forall i | 0 <= i < |r.job.manifest.stack| && i + 1 < r.phase.next :: Mirrored(log, |log|, id, r.job, i)
  }

  /** A push of the stack branch comes after those of all mirrors. */
  predicate MirrorsFirst(s: State, x: nat)
    requires x < |s.log|
  {
    var e := s.log[x];
    e.run in s.runs ==>
      var job := s.runs[e.run].job;
      e.ref == BranchRef(job.manifest) && BranchRef(job.manifest) != BaseRef(job.manifest) ==>
        forall i | 0 <= i < |job.manifest.stack| :: Mirrored(s.log, x, e.run, job, i)
  }

  ghost predicate Ordered(s: State) {
    && (forall id | id in s.runs :: InOrder(s.log, id, s.runs[id]))
    && (forall x | 0 <= x < |s.log| :: s.log[x].run in s.runs && MirrorsFirst(s, x))
  }

  lemma MirroredLater(log: seq<Landed>, more: seq<Landed>, n: nat, m: nat, id: nat, job: Job, i: nat)
    requires i < |job.manifest.stack| && n <= m && n <= |log| && Mirrored(log, n, id, job, i)
    ensures Mirrored(log + more, m, id, job, i)
  {
    var y :| 0 <= y < n && log[y].run == id && log[y].ref == MirrorRef(job.manifest, i + 1)
             && log[y].sha == MirrorTarget(job.manifest.stack[i], job.built.value).value;
    assert (log + more)[y] == log[y];
  }

  lemma InOrderLater(log: seq<Landed>, more: seq<Landed>, id: nat, r: Run)
    requires InOrder(log, id, r)
    ensures InOrder(log + more, id, r)
  {
    if AtOperation(r.phase) {
      forall i | 0 <= i < |r.job.manifest.stack| && i + 1 < r.phase.next
        ensures Mirrored(log + more, |log + more|, id, r.job, i)
      {
        MirroredLater(log, more, |log|, |log + more|, id, r.job, i);
      }
    }
  }

  /** A mirror's push that lands is in the log from then on. */
  lemma MirrorLands(ff: (string, string) -> bool, s: State, id: nat)
    requires id in s.runs && s.runs[id].phase.Leased? && 0 < s.runs[id].phase.next <= |s.runs[id].job.manifest.stack|
    requires Next(ff, s, Advance(id)).runs[id].phase.Reading?
    ensures var t := Next(ff, s, Advance(id));
            Mirrored(t.log, |t.log|, id, s.runs[id].job, s.runs[id].phase.next - 1)
  {
    var job, k := s.runs[id].job, s.runs[id].phase.next;
    var t := Next(ff, s, Advance(id));
    assert Plan(job.manifest, job.built.value)[k] == MirrorOp(job.manifest, job.built.value, k - 1);
    assert t.log == s.log + Added(ff, s, Advance(id)) && t.log[|s.log|] == Added(ff, s, Advance(id))[0];
  }

  predicate AtOperation(phase: Phase) {
    phase.Reading? || phase.Leased?
  }

  /** A run comes to an operation from the one before, by its push, or is at its first two. */
  lemma PhaseAdvances(ff: (string, string) -> bool, s: State, id: nat)
    requires id in s.runs && AtOperation(Next(ff, s, Advance(id)).runs[id].phase)
    ensures var (r, u) := (s.runs[id], Next(ff, s, Advance(id)).runs[id]);
            && u.job == r.job
            && (|| u.phase.next <= 1
                || (AtOperation(r.phase) && r.phase.next == u.phase.next)
                || (r.phase.Leased? && u.phase.Reading? && r.phase.next + 1 == u.phase.next))
  {
    var r := s.runs[id];
    if !Refused(r.job) && r.phase.Reading? && r.phase.next < |Plan(r.job.manifest, r.job.built.value)|
       && Plan(r.job.manifest, r.job.built.value)[r.phase.next].EnsureBase? {
      PlanRefs(r.job.manifest, r.job.built.value, r.phase.next);
    }
  }

  /** The run that steps stays in order. */
  lemma StepInOrder(ff: (string, string) -> bool, s: State, id: nat)
    requires id in s.runs && InOrder(s.log, id, s.runs[id])
    ensures InOrder(Next(ff, s, Advance(id)).log, id, Next(ff, s, Advance(id)).runs[id])
  {
    var r, t := s.runs[id], Next(ff, s, Advance(id));
    var u := t.runs[id];
    if AtOperation(u.phase) {
      PhaseAdvances(ff, s, id);
      InOrderLater(s.log, Added(ff, s, Advance(id)), id, r);
      assert t.log == s.log + Added(ff, s, Advance(id));
      forall i | 0 <= i < |u.job.manifest.stack| && i + 1 < u.phase.next
        ensures Mirrored(t.log, |t.log|, id, u.job, i)
      {
        if i + 1 == r.phase.next && r.phase.Leased? && u.phase.Reading? { MirrorLands(ff, s, id); }
      }
    }
  }

  lemma PushAfterMirrors(ff: (string, string) -> bool, s: State, id: nat, i: nat)
    requires id in s.runs && InOrder(s.log, id, s.runs[id]) && i < |s.runs[id].job.manifest.stack|
    requires Added(ff, s, Advance(id)) != []
    requires var job := s.runs[id].job;
             && Added(ff, s, Advance(id))[0].ref == BranchRef(job.manifest)
             && BranchRef(job.manifest) != BaseRef(job.manifest)
    ensures Mirrored(s.log, |s.log|, id, s.runs[id].job, i)
  {
    var r := s.runs[id];
    var k := r.phase.next;
    if 0 < k <= |r.job.manifest.stack| {
      assert Plan(r.job.manifest, r.job.built.value)[k] == MirrorOp(r.job.manifest, r.job.built.value, k - 1);
      MirrorIsNoOtherRef(r.job.manifest, r.job.manifest, k);
    }
  }

  lemma EntriesStayOrdered(ff: (string, string) -> bool, s: State, a: Action, x: nat)
    requires Ordered(s) && x < |Next(ff, s, a).log|
    ensures Next(ff, s, a).log[x].run in Next(ff, s, a).runs && MirrorsFirst(Next(ff, s, a), x)
  {
    var t := Next(ff, s, a);
    var more := Added(ff, s, a);
    assert t.log == s.log + more;
    if x < |s.log| {
      var e := s.log[x];
      assert t.log[x] == e && MirrorsFirst(s, x);
      var job := s.runs[e.run].job;
      if e.ref == BranchRef(job.manifest) && BranchRef(job.manifest) != BaseRef(job.manifest) {
        forall i | 0 <= i < |job.manifest.stack| ensures Mirrored(t.log, x, e.run, job, i) {
          MirroredLater(s.log, more, x, x, e.run, job, i);
        }
      }
    } else {
      var e := more[0];
      assert x == |s.log| && t.log[x] == e;
      var job := s.runs[a.id].job;
      if e.ref == BranchRef(job.manifest) && BranchRef(job.manifest) != BaseRef(job.manifest) {
        forall i | 0 <= i < |job.manifest.stack| ensures Mirrored(t.log, x, e.run, job, i) {
          PushAfterMirrors(ff, s, a.id, i);
          MirroredLater(s.log, more, |s.log|, x, e.run, job, i);
        }
      }
    }
  }

  lemma NextStaysOrdered(ff: (string, string) -> bool, s: State, a: Action)
    requires Ordered(s)
    ensures Ordered(Next(ff, s, a))
  {
    var t := Next(ff, s, a);
    var more := Added(ff, s, a);
    assert t.log == s.log + more;
    forall id | id in t.runs ensures InOrder(t.log, id, t.runs[id]) {
      if a == Advance(id) {
        StepInOrder(ff, s, id);
      } else if id in s.runs {
        InOrderLater(s.log, more, id, s.runs[id]);
      }
    }
    forall x | 0 <= x < |t.log| ensures t.log[x].run in t.runs && MirrorsFirst(t, x) {
      EntriesStayOrdered(ff, s, a, x);
    }
  }

  lemma {:induction false} HistoryStaysOrdered(ff: (string, string) -> bool, s: State, history: seq<Action>)
    requires Ordered(s)
    ensures Ordered(After(ff, s, history))
    decreases |history|
  {
    if history != [] {
      NextStaysOrdered(ff, s, history[0]);
      HistoryStaysOrdered(ff, Next(ff, s, history[0]), history[1..]);
    }
  }

  /** The inputs of a stack are on the fork before the stack is: over every history, whatever is
      stopped where, each push of a stack branch was preceded by the same run's pushes of every
      entry's mirror, each at the last commit picked for the entry. */
  lemma MirrorsPrecedeBranch(
      ff: (string, string) -> bool, disk: LockFile, refs: Refs, history: seq<Action>, x: nat, i: nat)
    requires x < |After(ff, Launchable(disk, refs), history).log|
    ensures var t := After(ff, Launchable(disk, refs), history);
            var e := t.log[x];
            && e.run in t.runs
            && var job := t.runs[e.run].job;
               e.ref == BranchRef(job.manifest) && BranchRef(job.manifest) != BaseRef(job.manifest)
               && i < |job.manifest.stack| ==>
                 Mirrored(t.log, x, e.run, job, i)
  {
    HistoryStaysOrdered(ff, Launchable(disk, refs), history);
    var t := After(ff, Launchable(disk, refs), history);
    assert MirrorsFirst(t, x);
  }
}
