/** Stopping a run anywhere and running it again (tools/stack.py:392-426, 489-535, 622-633). */
module Convergence {
  import opened Wrappers
  import opened Manifests
  import opened Chain
  import opened RefNames
  import opened Review
  import opened Publishing

  // --- Crash and rerun ------------------------------------------------------------------

  function Size(job: Job): nat {
    if job.built.None? then 0 else |Plan(job.manifest, job.built.value)|
  }

  function Measure(job: Job, phase: Phase): nat {
    var n := Size(job);
    match phase
    case Stopped(_) => 0
    case Leased(k, _) => if k >= n then 1 else 2 * (n - k)
    case Reading(k) => if k >= n then 1 else 2 * (n - k) + 1
    case Filling => 2 * n + 2
    case Writing => 2 * n + 3
    case Starting => 2 * n + 4
  }

  /** An uninterrupted run, with nobody else acting. */
  function Finish(job: Job, ff: (string, string) -> bool, c: Config): Config
    decreases Measure(job, c.phase)
  {
    if c.phase.Stopped? then c else Finish(job, ff, Step(job, ff, c))
  }

  /** The first `n` steps of such a run. */
  function Steps(job: Job, ff: (string, string) -> bool, c: Config, n: nat): Config
    decreases n
  {
    if n == 0 then c else Steps(job, ff, Step(job, ff, c), n - 1)
  }

  /** Run again on whatever an earlier run has left behind. */
  function Rerun(job: Job, ff: (string, string) -> bool, c: Config): Config {
    Finish(job, ff, c.(phase := Starting))
  }

  /** The remote operations from the k-th on, undisturbed: exit code and resulting refs. */
  function PublishFrom(plan: seq<Op>, k: nat, refs: Refs): (int, Refs)
    decreases |plan| - k
  {
    if k >= |plan| then (0, refs)
    else match plan[k]
      case GiveUp => (1, refs)
      case PushLeased(ref, sha) => PublishFrom(plan, k + 1, refs[ref := sha])
      case EnsureBase(ref, sha) =>
        if Lookup(refs, ref) == Some(sha) then PublishFrom(plan, k + 1, refs)
        else if Lookup(refs, ref).None? then PublishFrom(plan, k + 1, refs[ref := sha])
        else (1, refs)
  }

  /** A push, undisturbed, takes two steps and lands. */
  lemma PushTakesTwoSteps(job: Job, ff: (string, string) -> bool, k: nat, disk: LockFile, refs: Refs)
    requires !Refused(job) && k < |Plan(job.manifest, job.built.value)|
    requires var op := Plan(job.manifest, job.built.value)[k];
             op.PushLeased? || (op.EnsureBase? && Lookup(refs, op.ref).None?)
    ensures var op := Plan(job.manifest, job.built.value)[k];
            Step(job, ff, Step(job, ff, Config(Reading(k), disk, refs)))
            == Config(Reading(k + 1), disk, refs[op.ref := op.sha])
    ensures Step(job, ff, Config(Reading(k), disk, refs)).phase.Leased?
  {
  }

  /** Any other operation takes one: nothing to do, or the end. */
  lemma OtherTakesOneStep(job: Job, ff: (string, string) -> bool, k: nat, disk: LockFile, refs: Refs)
    requires !Refused(job) && k < |Plan(job.manifest, job.built.value)|
    requires var op := Plan(job.manifest, job.built.value)[k];
             op.GiveUp? || (op.EnsureBase? && Lookup(refs, op.ref).Some?)
    ensures var op := Plan(job.manifest, job.built.value)[k];
            Step(job, ff, Config(Reading(k), disk, refs)) ==
            if op.EnsureBase? && Lookup(refs, op.ref) == Some(op.sha) then Config(Reading(k + 1), disk, refs)
            else Config(Stopped(1), disk, refs)
  {
  }

  lemma FinishStep(job: Job, ff: (string, string) -> bool, c: Config)
    ensures Finish(job, ff, c) == Finish(job, ff, Step(job, ff, c))
  {
  }

  lemma {:induction false} FinishPublishes(job: Job, ff: (string, string) -> bool, k: nat, disk: LockFile, refs: Refs)
    requires !Refused(job)
    ensures var p := PublishFrom(Plan(job.manifest, job.built.value), k, refs);
            Finish(job, ff, Config(Reading(k), disk, refs)) == Config(Stopped(p.0), disk, p.1)
    decreases Size(job) - k
  {
    var plan := Plan(job.manifest, job.built.value);
    var c := Config(Reading(k), disk, refs);
    FinishStep(job, ff, c);
    if k < |plan| {
      var op := plan[k];
      if op.PushLeased? || (op.EnsureBase? && Lookup(refs, op.ref).None?) {
        PushTakesTwoSteps(job, ff, k, disk, refs);
        FinishStep(job, ff, Step(job, ff, c));
        FinishPublishes(job, ff, k + 1, disk, refs[op.ref := op.sha]);
      } else {
        OtherTakesOneStep(job, ff, k, disk, refs);
        if op.EnsureBase? && Lookup(refs, op.ref) == Some(op.sha) { FinishPublishes(job, ff, k + 1, disk, refs); }
      }
    }
  }

  /** What an undisturbed run amounts to: exit code, lock file and refs. */
  function Outcome(job: Job, disk: LockFile, refs: Refs): (int, LockFile, Refs) {
    if Refused(job) then (RefusalCode(job), disk, refs)
    else
      var verdict := Reconcile(disk, job.built.value, job.flags);
      if verdict == Refuse then (1, disk, refs)
      else
        var after := if verdict == Write then Holds(job.built.value) else disk;
        if job.flags.dryRun then (0, after, refs)
        else
          var p := PublishFrom(Plan(job.manifest, job.built.value), 0, refs);
          (p.0, after, p.1)
  }

  lemma OutcomeOfPass(job: Job, disk: LockFile, refs: Refs)
    requires !Refused(job) && !job.flags.dryRun && Reconcile(disk, job.built.value, job.flags) == Pass
    ensures var p := PublishFrom(Plan(job.manifest, job.built.value), 0, refs);
            Outcome(job, disk, refs) == (p.0, disk, p.1)
  {
  }

  /** The step machine, run to its end, and that closed form agree. */
  lemma FinishIsOutcome(job: Job, ff: (string, string) -> bool, disk: LockFile, refs: Refs)
    ensures var (code, disk', refs') := Outcome(job, disk, refs);
            Finish(job, ff, Config(Starting, disk, refs)) == Config(Stopped(code), disk', refs')
  {
    var s0 := Config(Starting, disk, refs);
    var s1 := Step(job, ff, s0);
    FinishStep(job, ff, s0);
    if s1.phase.Reading? {
      FinishPublishes(job, ff, 0, disk, refs);
    } else if s1.phase.Writing? {
      var s2 := Step(job, ff, s1);
      var s3 := Step(job, ff, s2);
      FinishStep(job, ff, s1);
      FinishStep(job, ff, s2);
      if s3.phase.Reading? { FinishPublishes(job, ff, 0, s3.disk, refs); }
    }
  }

  /** What a run that builds and gets past the lock comes to. */
  function Continued(job: Job, disk: LockFile, refs: Refs): (int, LockFile, Refs)
    requires job.built.Some?
  {
    if job.flags.dryRun then (0, disk, refs)
    else
      var p := PublishFrom(Plan(job.manifest, job.built.value), 0, refs);
      (p.0, disk, p.1)
  }

  /** main by its flags. Checking refs comes before everything else and reports only what is
      missing; then a frozen manifest is stepped over or refused; then a failed build. */
  lemma IdleOutcome(job: Job, disk: LockFile, refs: Refs)
    ensures job.flags.checkRefs ==> Outcome(job, disk, refs) == (if job.refsMissing then 1 else 0, disk, refs)
    ensures !job.flags.checkRefs && job.manifest.frozen && job.flags.skipFrozen ==>
              Outcome(job, disk, refs) == (0, disk, refs)
    ensures !job.flags.checkRefs && job.manifest.frozen && !job.flags.skipFrozen && !job.flags.allowRewrite ==>
              Outcome(job, disk, refs) == (1, disk, refs)
    ensures !job.flags.checkRefs && !job.manifest.frozen && job.built.None? ==>
              Outcome(job, disk, refs) == (1, disk, refs)
    ensures !job.flags.checkRefs && job.flags.allowRewrite && !job.flags.skipFrozen && job.built.None? ==>
              Outcome(job, disk, refs) == (1, disk, refs)
  {
  }

  /** And a run that builds: a matching lock lets it go on; a missing one must be written first,
      or stops it; a different one stops it unless a rewrite is allowed, and is replaced when a
      write is asked for too. */
  lemma BuiltOutcome(job: Job, disk: LockFile, refs: Refs)
    requires !job.flags.checkRefs && job.built.Some?
    requires job.manifest.frozen ==> job.flags.allowRewrite && !job.flags.skipFrozen
    ensures var lock := job.built.value;
            Outcome(job, disk, refs) ==
            if disk == Holds(lock) then Continued(job, disk, refs)
            else if disk.Holds? then
              if job.flags.allowRewrite && job.flags.writeLock then Continued(job, Holds(lock), refs)
              else if job.flags.allowRewrite then Continued(job, disk, refs)
              else (1, disk, refs)
            else if job.flags.writeLock then Continued(job, Holds(lock), refs)
            else (1, disk, refs)
  {
  }

  /** The plan past its first operation contains only pushes and give-ups. */
  predicate PushesOnly(plan: seq<Op>, k: nat) {
    forall i | k <= i < |plan| :: !plan[i].EnsureBase?
  }

  /** Setting early a ref that a later, reachable push sets anyway changes nothing. */
  lemma {:induction false} EarlyPushIsAbsorbed(plan: seq<Op>, k: nat, j: nat, refs: Refs)
    requires k <= j < |plan| && PushesOnly(plan, k) && plan[j].PushLeased?
    requires forall i | k <= i < j :: !plan[i].GiveUp?
    ensures PublishFrom(plan, k, refs[plan[j].ref := plan[j].sha]) == PublishFrom(plan, k, refs)
    decreases j - k
  {
    var (ref, sha) := (plan[j].ref, plan[j].sha);
    if k == j {
      assert refs[ref := sha][ref := sha] == refs[ref := sha];
    } else {
      var (r, s) := (plan[k].ref, plan[k].sha);
      if r == ref {
        assert refs[ref := sha][r := s] == refs[r := s];
      } else {
        assert refs[ref := sha][r := s] == refs[r := s][ref := sha];
        EarlyPushIsAbsorbed(plan, k + 1, j, refs[r := s]);
      }
    }
  }

  /** What an undisturbed run knows at each point. */
  predicate Undisturbed(job: Job, c: Config) {
    c.phase.Starting? || c.phase.Stopped? ||
    (&& !Refused(job)
     && var plan := Plan(job.manifest, job.built.value);
        match c.phase
        case Writing => Reconcile(c.disk, job.built.value, job.flags) == Write
        case Filling => c.disk == Empty && job.flags.writeLock
        case Reading(k) => Progressed(job, plan, c, k)
        case Leased(k, expected) =>
          && k < |plan| && !plan[k].GiveUp? && Progressed(job, plan, c, k)
          && expected == Lookup(c.refs, plan[k].ref)
          && (plan[k].EnsureBase? ==> expected.None?))
  }

  predicate Progressed(job: Job, plan: seq<Op>, c: Config, k: nat)
    requires job.built.Some?
  {
    && Reconcile(c.disk, job.built.value, job.flags) == Pass && !job.flags.dryRun
    && k <= |plan|
    && (forall i | 0 <= i < k :: !plan[i].GiveUp?)
    && (k > 0 ==> Lookup(c.refs, BaseRef(job.manifest)) == Some(job.built.value.baseSha))
  }

  lemma PlanStart(m: Manifest, lock: Lock)
    ensures var plan := Plan(m, lock); plan[0] == EnsureBase(BaseRef(m), lock.baseSha) && PushesOnly(plan, 1)
  {
    var plan := Plan(m, lock);
    forall i | 0 < i < |plan| ensures !plan[i].EnsureBase? {
      if i <= |m.stack| { assert plan[i] == MirrorOp(m, lock, i - 1); }
    }
  }

  lemma PlanShape(m: Manifest, lock: Lock)
    requires BranchRef(m) != BaseRef(m)
    ensures var plan := Plan(m, lock);
            && plan[0] == EnsureBase(BaseRef(m), lock.baseSha)
            && PushesOnly(plan, 1)
            && forall i | 0 < i < |plan| && plan[i].PushLeased? :: plan[i].ref != BaseRef(m)
  {
    PlanStart(m, lock);
    var plan := Plan(m, lock);
    forall i | 0 < i < |plan| && plan[i].PushLeased? ensures plan[i].ref != BaseRef(m) {
      PlanRefs(m, lock, i);
    }
  }

  /** The base branch stays what a rerun expects of it: the stack branch is another ref, or
      carries the base itself, or is never pushed. */
  predicate Rerunnable(job: Job) {
    || Refused(job) || job.flags.dryRun
    || BranchRef(job.manifest) != BaseRef(job.manifest) || job.built.value.branchSha == job.built.value.baseSha
    || exists e :: e in job.manifest.stack && MirrorTarget(e, job.built.value).None?
  }

  /** An operation that is reached leaves the base as a rerun expects it. */
  lemma OperationSparesBase(job: Job, k: nat)
    requires !Refused(job) && !job.flags.dryRun && Rerunnable(job) && 0 < k < |Plan(job.manifest, job.built.value)|
    requires forall i | 0 <= i <= k :: !Plan(job.manifest, job.built.value)[i].GiveUp?
    ensures var op := Plan(job.manifest, job.built.value)[k];
            op.PushLeased? && (op.ref != BaseRef(job.manifest) || op.sha == job.built.value.baseSha)
  {
    var m, lock := job.manifest, job.built.value;
    PlanStart(m, lock);
    if k <= |m.stack| {
      MirrorPosition(m, lock, k);
      MirrorIsNoOtherRef(m, m, k);
    } else {
      forall e | e in m.stack ensures MirrorTarget(e, lock).Some? {
        var i :| 0 <= i < |m.stack| && m.stack[i] == e;
        assert Plan(m, lock)[i + 1] == MirrorOp(m, lock, i);
      }
    }
  }

  lemma StepStaysUndisturbed(job: Job, ff: (string, string) -> bool, c: Config)
    requires Undisturbed(job, c) && (c.phase.Leased? ==> Rerunnable(job))
    ensures Undisturbed(job, Step(job, ff, c))
  {
    if c.phase.Leased? {
      LeasedStaysUndisturbed(job, ff, c);
    } else if c.phase.Reading? && !Refused(job) {
      PlanStart(job.manifest, job.built.value);
    }
  }

  /** Undisturbed, every push lands. */
  lemma LeasedLands(job: Job, ff: (string, string) -> bool, c: Config)
    requires Undisturbed(job, c) && c.phase.Leased?
    ensures var op := Plan(job.manifest, job.built.value)[c.phase.next];
            Step(job, ff, c) == Config(Reading(c.phase.next + 1), c.disk, c.refs[op.ref := op.sha])
  {
  }

  lemma LeasedStaysUndisturbed(job: Job, ff: (string, string) -> bool, c: Config)
    requires Undisturbed(job, c) && c.phase.Leased? && Rerunnable(job)
    ensures Undisturbed(job, Step(job, ff, c))
  {
    var plan := Plan(job.manifest, job.built.value);
    var (k, op) := (c.phase.next, plan[c.phase.next]);
    LeasedOp(job, c);
    LeasedLands(job, ff, c);
    PushProgresses(job, plan, c, k, op);
    UndisturbedAt(job, Config(Reading(k + 1), c.disk, c.refs[op.ref := op.sha]));
  }

  lemma LeasedOp(job: Job, c: Config)
    requires Undisturbed(job, c) && c.phase.Leased? && Rerunnable(job)
    ensures var plan := Plan(job.manifest, job.built.value);
            var (k, op) := (c.phase.next, plan[c.phase.next]);
            && Progressed(job, plan, c, k)
            && if k == 0 then op == EnsureBase(BaseRef(job.manifest), job.built.value.baseSha)
               else op.PushLeased? && (op.ref != BaseRef(job.manifest) || op.sha == job.built.value.baseSha)
    ensures forall i | 0 <= i <= c.phase.next :: !Plan(job.manifest, job.built.value)[i].GiveUp?
    ensures Lookup(c.refs, BaseRef(job.manifest)) ==
            if c.phase.next > 0 then Some(job.built.value.baseSha) else None
  {
    if c.phase.next > 0 {
      OperationSparesBase(job, c.phase.next);
    } else {
      PlanStart(job.manifest, job.built.value);
    }
  }

  lemma UndisturbedAt(job: Job, c: Config)
    requires !Refused(job) && c.phase.Reading?
    requires Progressed(job, Plan(job.manifest, job.built.value), c, c.phase.next)
    ensures Undisturbed(job, c)
  {
  }

  lemma PushProgresses(job: Job, plan: seq<Op>, c: Config, k: nat, op: Op)
    requires job.built.Some? && k < |plan| && op == plan[k] && !op.GiveUp?
    requires Progressed(job, plan, c, k)
    requires if k == 0 then op == EnsureBase(BaseRef(job.manifest), job.built.value.baseSha)
             else op.ref != BaseRef(job.manifest) || op.sha == job.built.value.baseSha
    ensures Progressed(job, plan, Config(Reading(k + 1), c.disk, c.refs[op.ref := op.sha]), k + 1)
  {
  }

  /** No single write or push of an undisturbed run changes what a rerun would end in. */
  lemma StepKeepsRerun(job: Job, ff: (string, string) -> bool, c: Config)
    requires Undisturbed(job, c) && Rerunnable(job)
    ensures Rerun(job, ff, Step(job, ff, c)) == Rerun(job, ff, c)
  {
    var d := Step(job, ff, c);
    FinishIsOutcome(job, ff, c.disk, c.refs);
    FinishIsOutcome(job, ff, d.disk, d.refs);
    if c.phase.Leased? {
      LeasedKeepsOutcome(job, ff, c);
    } else {
      WriteKeepsOutcome(job, ff, c);
    }
  }

  lemma WriteKeepsOutcome(job: Job, ff: (string, string) -> bool, c: Config)
    requires Undisturbed(job, c) && !c.phase.Leased?
    ensures Step(job, ff, c).refs == c.refs
    ensures Outcome(job, Step(job, ff, c).disk, c.refs) == Outcome(job, c.disk, c.refs)
  {
  }

  lemma LeasedKeepsOutcome(job: Job, ff: (string, string) -> bool, c: Config)
    requires Undisturbed(job, c) && c.phase.Leased? && Rerunnable(job)
    ensures var d := Step(job, ff, c);
            d.disk == c.disk && Outcome(job, d.disk, d.refs) == Outcome(job, c.disk, c.refs)
  {
    LeasedLands(job, ff, c);
    LeasedOp(job, c);
    PushKeepsPublication(job.manifest, job.built.value, c.phase.next, c.refs);
    OutcomeOfPass(job, c.disk, c.refs);
    OutcomeOfPass(job, c.disk, Step(job, ff, c).refs);
  }

  /** A push of the plan made early is absorbed when the plan is run from its start. */
  lemma PushKeepsPublication(m: Manifest, lock: Lock, k: nat, refs: Refs)
    requires k < |Plan(m, lock)|
    requires forall i | 0 <= i <= k :: !Plan(m, lock)[i].GiveUp?
    requires k > 0 ==> Plan(m, lock)[k].ref != BaseRef(m) || Plan(m, lock)[k].sha == lock.baseSha
    requires Lookup(refs, BaseRef(m)) == if k > 0 then Some(lock.baseSha) else None
    ensures var plan := Plan(m, lock);
            PublishFrom(plan, 0, refs[plan[k].ref := plan[k].sha]) == PublishFrom(plan, 0, refs)
  {
    var plan := Plan(m, lock);
    PlanStart(m, lock);
    if k > 0 { EarlyPushIsAbsorbed(plan, 1, k, refs); }
  }

  lemma {:induction false} StepsKeepRerun(job: Job, ff: (string, string) -> bool, c: Config, n: nat)
    requires Undisturbed(job, c) && Rerunnable(job)
    ensures Rerun(job, ff, Steps(job, ff, c, n)) == Rerun(job, ff, c)
    decreases n
  {
    if n > 0 {
      StepStaysUndisturbed(job, ff, c);
      StepKeepsRerun(job, ff, c);
      StepsKeepRerun(job, ff, Step(job, ff, c), n - 1);
    }
  }

  /** What any number of attempts leave, each stopped after the given number of steps. */
  function Attempts(job: Job, ff: (string, string) -> bool, c: Config, stops: seq<nat>): Config
    decreases |stops|
  {
    if stops == [] then c
    else Attempts(job, ff, Steps(job, ff, c.(phase := Starting), stops[0]), stops[1..])
  }

  // --- What a completed publication is --------------------------------------------------

  /** Refs that no remaining push sets keep their value; a push whose ref no later one sets
      decides it. */
  lemma {:induction false} PublishFromOutcome(plan: seq<Op>, k: nat, refs: Refs)
    requires PushesOnly(plan, k)
    ensures var r := PublishFrom(plan, k, refs);
            && (r.0 == 0 <==> forall i | k <= i < |plan| :: !plan[i].GiveUp?)
            && (forall ref | (forall i | k <= i < |plan| && plan[i].PushLeased? :: plan[i].ref != ref) ::
                  Lookup(r.1, ref) == Lookup(refs, ref))
    decreases |plan| - k
  {
    if k < |plan| && plan[k].PushLeased? {
      PublishFromOutcome(plan, k + 1, refs[plan[k].ref := plan[k].sha]);
    }
  }

  lemma {:induction false} LastPushDecides(plan: seq<Op>, k: nat, j: nat, refs: Refs)
    requires PushesOnly(plan, k) && k <= j < |plan| && plan[j].PushLeased?
    requires forall i | k <= i < |plan| :: !plan[i].GiveUp?
    requires forall i | j < i < |plan| && plan[i].PushLeased? :: plan[i].ref != plan[j].ref
    ensures Lookup(PublishFrom(plan, k, refs).1, plan[j].ref) == Some(plan[j].sha)
    decreases j - k
  {
    var next := refs[plan[k].ref := plan[k].sha];
    if k == j {
      PublishFromOutcome(plan, k + 1, next);
    } else {
      LastPushDecides(plan, k + 1, j, next);
    }
  }

  /** The position of a ref in a plan is unique. */
  lemma PlanRefsDistinct(m: Manifest, lock: Lock, i: nat, j: nat)
    requires BranchRef(m) != BaseRef(m)
    requires i < j < |Plan(m, lock)| && !Plan(m, lock)[i].GiveUp? && !Plan(m, lock)[j].GiveUp?
    ensures Plan(m, lock)[i].ref != Plan(m, lock)[j].ref
  {
    PlanRefs(m, lock, j);
    if i > 0 {
      MirrorPosition(m, lock, i);
      if j <= |m.stack| {
        MirrorPosition(m, lock, j);
        MirrorRefInjective(m, i, j);
      } else {
        MirrorIsNoOtherRef(m, m, i);
      }
    } else {
      assert Plan(m, lock)[0].ref == BaseRef(m);
    }
  }

  lemma MirrorPosition(m: Manifest, lock: Lock, i: nat)
    requires 0 < i <= |m.stack|
    ensures Plan(m, lock)[i] == MirrorOp(m, lock, i - 1)
    ensures !Plan(m, lock)[i].GiveUp? ==> Plan(m, lock)[i].ref == MirrorRef(m, i)
  {
  }

  /** Publication fails, changing nothing, when the base branch has moved; otherwise it
      continues with the pushes, from a pristine base. */
  lemma PublishBase(m: Manifest, lock: Lock, refs: Refs)
    ensures var current := Lookup(refs, BaseRef(m));
            PublishFrom(Plan(m, lock), 0, refs) ==
            if current in {None, Some(lock.baseSha)}
            then PublishFrom(Plan(m, lock), 1, refs[BaseRef(m) := lock.baseSha])
            else (1, refs)
  {
    PlanStart(m, lock);
    if Lookup(refs, BaseRef(m)) == Some(lock.baseSha) { assert refs[BaseRef(m) := lock.baseSha] == refs; }
  }

  lemma NoGiveUpIff(m: Manifest, lock: Lock)
    ensures (forall i | 1 <= i < |Plan(m, lock)| :: !Plan(m, lock)[i].GiveUp?) <==>
            forall e | e in m.stack :: MirrorTarget(e, lock).Some?
  {
    var plan := Plan(m, lock);
    if forall i | 1 <= i < |plan| :: !plan[i].GiveUp? {
      forall e | e in m.stack ensures MirrorTarget(e, lock).Some? {
        var i :| 0 <= i < |m.stack| && m.stack[i] == e;
        assert plan[i + 1] == MirrorOp(m, lock, i);
      }
    } else {
      var i :| 1 <= i < |plan| && plan[i].GiveUp?;
      assert plan[i] == MirrorOp(m, lock, i - 1) && m.stack[i - 1] in m.stack;
    }
  }

  /** A moved base stops the publication before anything changes; otherwise it succeeds exactly
      when every entry has a mirror target. */
  lemma PublishSucceedsIff(m: Manifest, lock: Lock, refs: Refs)
    ensures var (code, out) := PublishFrom(Plan(m, lock), 0, refs);
            && (code == 0 <==> Lookup(refs, BaseRef(m)) in {None, Some(lock.baseSha)}
                               && forall e | e in m.stack :: MirrorTarget(e, lock).Some?)
            && (Lookup(refs, BaseRef(m)) !in {None, Some(lock.baseSha)} ==> out == refs)
  {
    PublishBase(m, lock, refs);
    PlanStart(m, lock);
    PublishFromOutcome(Plan(m, lock), 1, refs[BaseRef(m) := lock.baseSha]);
    NoGiveUpIff(m, lock);
  }

  lemma PublishedBranch(m: Manifest, lock: Lock, refs: Refs)
    requires PublishFrom(Plan(m, lock), 0, refs).0 == 0
    ensures Lookup(PublishFrom(Plan(m, lock), 0, refs).1, BranchRef(m)) == Some(lock.branchSha)
  {
    var next := refs[BaseRef(m) := lock.baseSha];
    PublishBase(m, lock, refs);
    PlanStart(m, lock);
    PublishFromOutcome(Plan(m, lock), 1, next);
    LastPushDecides(Plan(m, lock), 1, |Plan(m, lock)| - 1, next);
  }

  /** The run ends well and has put the stack it built on the fork, but the lock on disk is not
      the one it built. */
  predicate PublishesUnrecorded(job: Job, disk: LockFile, refs: Refs) {
    var (code, disk', refs') := Outcome(job, disk, refs);
    && !Refused(job) && !job.flags.dryRun && code == 0
    && Lookup(refs', BranchRef(job.manifest)) == Some(job.built.value.branchSha)
    && disk' != Holds(job.built.value)
  }

  /** A run that nobody disturbs publishes what the lock does not record if and only if a
      different lock is committed, rewriting it is allowed but not asked for, and nothing stops
      the publication; the lock then stays as it was. The SHA on the branch is then another than
      the lock's if and only if the two stacks differ in it. */
  lemma PublishesUnrecordedIff(job: Job, disk: LockFile, refs: Refs)
    ensures PublishesUnrecorded(job, disk, refs) <==>
            && !Refused(job) && !job.flags.dryRun
            && disk.Holds? && disk.lock != job.built.value && job.flags.allowRewrite && !job.flags.writeLock
            && Lookup(refs, BaseRef(job.manifest)) in {None, Some(job.built.value.baseSha)}
            && forall e | e in job.manifest.stack :: MirrorTarget(e, job.built.value).Some?
    ensures PublishesUnrecorded(job, disk, refs) ==>
              var (_, disk', refs') := Outcome(job, disk, refs);
              && disk' == disk
              && (Lookup(refs', BranchRef(job.manifest)) != Some(disk'.lock.branchSha) <==>
                  disk.lock.branchSha != job.built.value.branchSha)
  {
    if !Refused(job) {
      PublishSucceedsIff(job.manifest, job.built.value, refs);
      if PublishFrom(Plan(job.manifest, job.built.value), 0, refs).0 == 0 {
        PublishedBranch(job.manifest, job.built.value, refs);
      }
    }
  }

  /** After a successful publication the base, every mirror and the stack branch hold what the
      lock says. */
  lemma PublishedRefs(m: Manifest, lock: Lock, refs: Refs, i: nat)
    requires BranchRef(m) != BaseRef(m) && i < |m.stack|
    requires PublishFrom(Plan(m, lock), 0, refs).0 == 0
    ensures var out := PublishFrom(Plan(m, lock), 0, refs).1;
            && Lookup(out, BaseRef(m)) == Some(lock.baseSha)
            && Lookup(out, BranchRef(m)) == Some(lock.branchSha)
            && Lookup(out, MirrorRef(m, i + 1)) == MirrorTarget(m.stack[i], lock)
  {
    var next := refs[BaseRef(m) := lock.baseSha];
    PublishBase(m, lock, refs);
    PlanShape(m, lock);
    PublishFromOutcome(Plan(m, lock), 1, next);
    PlannedRefDecides(m, lock, next, i + 1);
    PlannedRefDecides(m, lock, next, |m.stack| + 1);
    MirrorPosition(m, lock, i + 1);
    BaseSurvives(m, lock, next);
  }

  lemma BaseSurvives(m: Manifest, lock: Lock, refs: Refs)
    requires BranchRef(m) != BaseRef(m)
    ensures Lookup(PublishFrom(Plan(m, lock), 1, refs).1, BaseRef(m)) == Lookup(refs, BaseRef(m))
  {
    PlanShape(m, lock);
    PublishFromOutcome(Plan(m, lock), 1, refs);
  }

  lemma PlannedRefDecides(m: Manifest, lock: Lock, refs: Refs, j: nat)
    requires BranchRef(m) != BaseRef(m) && 1 <= j < |Plan(m, lock)|
    requires forall i | 1 <= i < |Plan(m, lock)| :: !Plan(m, lock)[i].GiveUp?
    ensures var plan := Plan(m, lock);
            Lookup(PublishFrom(plan, 1, refs).1, plan[j].ref) == Some(plan[j].sha)
  {
    var plan := Plan(m, lock);
    PlanShape(m, lock);
    forall i | j < i < |plan| && plan[i].PushLeased? ensures plan[i].ref != plan[j].ref {
      PlanRefsDistinct(m, lock, j, i);
    }
    LastPushDecides(plan, 1, j, refs);
  }

  /** And every ref that is none of these is as before, whether or not it succeeds. */
  lemma PublishLeavesOtherRefs(m: Manifest, lock: Lock, refs: Refs, ref: string)
    requires ref != BaseRef(m) && ref != BranchRef(m) && forall i: nat | i < |m.stack| :: !IsMirror(m, ref, i)
    ensures Lookup(PublishFrom(Plan(m, lock), 0, refs).1, ref) == Lookup(refs, ref)
  {
    var plan := Plan(m, lock);
    PublishBase(m, lock, refs);
    PlanStart(m, lock);
    forall i | 1 <= i < |plan| && plan[i].PushLeased? ensures plan[i].ref != ref {
      if i <= |m.stack| {
        assert plan[i] == MirrorOp(m, lock, i - 1);
        assert !IsMirror(m, ref, i - 1);
      }
    }
    PublishFromOutcome(plan, 1, refs[BaseRef(m) := lock.baseSha]);
  }

  /** For the one shape of tag that makes the stack branch its own base, a completed release
      cannot be run again: that exclusion is needed. */
  lemma RerunFailsWhenBranchIsBase(m: Manifest, lock: Lock, refs: Refs)
    requires BranchRef(m) == BaseRef(m) && lock.branchSha != lock.baseSha
    requires PublishFrom(Plan(m, lock), 0, refs).0 == 0
    ensures var out := PublishFrom(Plan(m, lock), 0, refs).1;
            PublishFrom(Plan(m, lock), 0, out) == (1, out)
  {
    var plan := Plan(m, lock);
    forall i | 1 <= i < |plan| ensures !plan[i].EnsureBase? {
      if i <= |m.stack| { assert plan[i] == MirrorOp(m, lock, i - 1); }
    }
    var next := if Lookup(refs, BaseRef(m)).None? then refs[BaseRef(m) := lock.baseSha] else refs;
    assert PublishFrom(plan, 0, refs) == PublishFrom(plan, 1, next);
    PublishFromOutcome(plan, 1, next);
    LastPushDecides(plan, 1, |plan| - 1, next);
  }

  // --- When stopping and running again is harmless --------------------------------------

  /** The run publishes, and leaves the base branch where a rerun will not accept it: checked
      from the manifest, the flags, the lock file and the fork before the run. */
  predicate Fragile(job: Job, disk: LockFile, refs: Refs) {
    && !Rerunnable(job) && Reconcile(disk, job.built.value, job.flags) != Refuse
    && Lookup(refs, BaseRef(job.manifest)) in {None, Some(job.built.value.baseSha)}
  }

  /** The run never gets to a push: the lock refuses it, or the base has moved. */
  predicate Stuck(job: Job, disk: LockFile, refs: Refs) {
    && !Refused(job)
    && (Reconcile(disk, job.built.value, job.flags) == Refuse
        || Lookup(refs, BaseRef(job.manifest)) !in {None, Some(job.built.value.baseSha)})
  }

  lemma {:induction false} StuckStepsKeepRerun(job: Job, ff: (string, string) -> bool, c: Config, n: nat)
    requires Undisturbed(job, c) && Stuck(job, c.disk, c.refs)
    ensures var d := Steps(job, ff, c, n);
            Stuck(job, d.disk, d.refs) && Rerun(job, ff, d) == Rerun(job, ff, c)
    decreases n
  {
    if n > 0 {
      var d := Step(job, ff, c);
      StuckStep(job, ff, c);
      StepStaysUndisturbed(job, ff, c);
      FinishIsOutcome(job, ff, c.disk, c.refs);
      FinishIsOutcome(job, ff, d.disk, d.refs);
      StuckStepsKeepRerun(job, ff, d, n - 1);
    }
  }

  lemma StuckStep(job: Job, ff: (string, string) -> bool, c: Config)
    requires Undisturbed(job, c) && Stuck(job, c.disk, c.refs)
    ensures !c.phase.Leased?
    ensures var d := Step(job, ff, c);
            Stuck(job, d.disk, d.refs) && Outcome(job, d.disk, d.refs) == Outcome(job, c.disk, c.refs)
  {
    PlanStart(job.manifest, job.built.value);
    if !c.phase.Leased? { WriteKeepsOutcome(job, ff, c); }
  }

  lemma {:induction false} AttemptsConverge(job: Job, ff: (string, string) -> bool, c: Config, stops: seq<nat>)
    requires !Fragile(job, c.disk, c.refs)
    ensures Rerun(job, ff, Attempts(job, ff, c, stops)) == Rerun(job, ff, c)
    decreases |stops|
  {
    if stops != [] {
      var start := c.(phase := Starting);
      if Rerunnable(job) {
        StepsKeepRerun(job, ff, start, stops[0]);
      } else {
        StuckStepsKeepRerun(job, ff, start, stops[0]);
      }
      AttemptsConverge(job, ff, Steps(job, ff, start, stops[0]), stops[1..]);
    }
  }

  /** Enough steps finish a run. */
  lemma {:induction false} StepsFinish(job: Job, ff: (string, string) -> bool, c: Config, n: nat)
    requires n >= Measure(job, c.phase)
    ensures Steps(job, ff, c, n) == Finish(job, ff, c)
    decreases n
  {
    if n > 0 {
      if c.phase.Stopped? {
        StepsFinish(job, ff, c, n - 1);
      } else {
        FinishStep(job, ff, c);
        StepLowersMeasure(job, ff, c);
        StepsFinish(job, ff, Step(job, ff, c), n - 1);
      }
    }
  }

  lemma StepLowersMeasure(job: Job, ff: (string, string) -> bool, c: Config)
    ensures c.phase.Stopped? || Measure(job, Step(job, ff, c).phase) < Measure(job, c.phase)
    ensures Measure(job, c.phase) == 0 <==> c.phase.Stopped?
  {
  }

  /** Stop a run after any step, rerun and stop it again, any number of times and under any
      flags: one uninterrupted rerun with the same inputs ends in the same exit code, lock file
      and refs as a run that was never interrupted, for every choice of stops if and only if the
      run is not fragile. Only the one shape of tag that makes the stack branch its own base can
      make it so. */
  lemma CrashAndRerunConverges(job: Job, ff: (string, string) -> bool, c: Config)
    ensures (forall stops :: Rerun(job, ff, Attempts(job, ff, c, stops)) == Rerun(job, ff, c))
            <==> !Fragile(job, c.disk, c.refs)
    ensures Fragile(job, c.disk, c.refs) ==> BranchRef(job.manifest) == BaseRef(job.manifest)
  {
    if Fragile(job, c.disk, c.refs) {
      var stops := FragileDiverges(job, ff, c);
    } else {
      forall stops ensures Rerun(job, ff, Attempts(job, ff, c, stops)) == Rerun(job, ff, c) {
        AttemptsConverge(job, ff, c, stops);
      }
    }
  }

  /** One attempt that gets to its end is enough. */
  lemma FragileDiverges(job: Job, ff: (string, string) -> bool, c: Config) returns (stops: seq<nat>)
    requires Fragile(job, c.disk, c.refs)
    ensures Rerun(job, ff, Attempts(job, ff, c, stops)).phase != Rerun(job, ff, c).phase
  {
    var start := c.(phase := Starting);
    var n := Measure(job, Starting);
    stops := [n];
    StepsFinish(job, ff, start, n);
    OneAttempt(job, ff, c, n);
    var d := Finish(job, ff, start);
    FinishIsOutcome(job, ff, c.disk, c.refs);
    FragileRerunFails(job, c.disk, c.refs);
    FinishIsOutcome(job, ff, d.disk, d.refs);
  }

  lemma OneAttempt(job: Job, ff: (string, string) -> bool, c: Config, n: nat)
    ensures Attempts(job, ff, c, [n]) == Steps(job, ff, c.(phase := Starting), n)
  {
    var d := Steps(job, ff, c.(phase := Starting), n);
    assert [n][1..] == [] && Attempts(job, ff, d, []) == d;
  }

  lemma FragileRerunFails(job: Job, disk: LockFile, refs: Refs)
    requires Fragile(job, disk, refs)
    ensures var (code, disk', refs') := Outcome(job, disk, refs);
            code == 0 && Outcome(job, disk', refs').0 == 1
  {
    var m, lock := job.manifest, job.built.value;
    PublishSucceedsIff(m, lock, refs);
    RerunFailsWhenBranchIsBase(m, lock, refs);
  }

  lemma {:induction false} FinishKeepsRerun(job: Job, ff: (string, string) -> bool, c: Config)
    requires Undisturbed(job, c) && Rerunnable(job)
    ensures Rerun(job, ff, Finish(job, ff, c)) == Rerun(job, ff, c)
    decreases Measure(job, c.phase)
  {
    if !c.phase.Stopped? {
      StepStaysUndisturbed(job, ff, c);
      StepKeepsRerun(job, ff, c);
      FinishStep(job, ff, c);
      FinishKeepsRerun(job, ff, Step(job, ff, c));
    }
  }

  /** Running a finished release again, whether it succeeded or not, ends the same way and
      changes neither the lock nor any ref, if and only if the run was not fragile. */
  lemma FinishedRunIsStable(job: Job, disk: LockFile, refs: Refs)
    ensures var (code, disk', refs') := Outcome(job, disk, refs);
            Outcome(job, disk', refs') == (code, disk', refs') <==> !Fragile(job, disk, refs)
  {
    if Fragile(job, disk, refs) {
      FragileRerunFails(job, disk, refs);
    } else if Rerunnable(job) {
      var ff := (a: string, b: string) => false;
      var c := Config(Starting, disk, refs);
      var d := Finish(job, ff, c);
      FinishKeepsRerun(job, ff, c);
      FinishIsOutcome(job, ff, disk, refs);
      FinishIsOutcome(job, ff, d.disk, d.refs);
    } else {
      PublishSucceedsIff(job.manifest, job.built.value, refs);
    }
  }
}
