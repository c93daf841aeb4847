/** The imperative code of one run (tools/stack.py:156-171, 392-426, 454-464, 489-535, 582-642),
    proved against the step machine of Publishing run to its end. */
module Releases {
  import opened Wrappers
  import opened Manifests
  import opened Chain
  import opened RefNames
  import opened Review
  import opened Publishing
  import opened Convergence

  function Parsed(raw: RawManifest): Manifest
    requires Acceptable(raw)
  {
    Manifest(raw.tag, raw.base,
             seq(|raw.stack.entries|, i requires 0 <= i < |raw.stack.entries| => ToEntry(raw.stack.entries[i])),
             raw.frozen)
  }

  predicate RefMissing(w: World, e: Entry) {
    e.rebased.Some? && w.forkRef(e.rebased.value.ref).None?
  }

  /** The job a manifest, a world and the flags amount to. */
  function JobOf(w: World, m: Manifest, fork: string, flags: Flags): Job {
    Job(m, match Build(w, m, fork) case Success(lock) => Some(lock) case Failure(_) => None, flags,
        exists e :: e in m.stack && RefMissing(w, e))
  }

  /** Every build gives a job that carries its manifest. */
  lemma JobIsWellBuilt(w: World, m: Manifest, fork: string, flags: Flags)
    ensures WellBuilt(JobOf(w, m, fork, flags))
    ensures JobOf(w, m, fork, flags).built.Some? <==> Build(w, m, fork).Success?
  {
    if Build(w, m, fork).Success? { LockNamesItsInputs(w, m, fork); }
  }

  /** What a release leaves on the fork is what was built: the commit of the base tag on the base
      branch, the tip of the stack on the stack branch, and for each entry its last picked commit
      on its mirror. */
  lemma PublishedIsBuilt(w: World, m: Manifest, fork: string, refs: Refs, i: nat) returns (tip: Commit)
    requires ValidManifest(m) && Build(w, m, fork).Success? && BranchRef(m) != BaseRef(m) && i < |m.stack|
    requires Lookup(refs, BaseRef(m)) in {None, Some(Build(w, m, fork).value.baseSha)}
    ensures var lock := Build(w, m, fork).value;
            var (code, out) := PublishFrom(Plan(m, lock), 0, refs);
            && code == 0
            && Lookup(out, BaseRef(m)) == Some(w.git.name(w.baseOf(m.base).value))
            && Lookup(out, BranchRef(m)) == Some(w.git.name(tip)) && Below(tip, |lock.picked|) == w.baseOf(m.base)
            && Lookup(out, MirrorRef(m, i + 1)) == MirrorTarget(m.stack[i], lock)
            && MirrorTarget(m.stack[i], lock).Some?
  {
    var lock := Build(w, m, fork).value;
    LockNamesItsInputs(w, m, fork);
    tip := BuildIsOneChain(w, m, fork);
    BuildConservesIffDistinct(w, m, fork);
    PublishSucceedsIff(m, lock, refs);
    PublishedRefs(m, lock, refs, i);
    assert m.stack[i] in m.stack;
  }

  /** Some branch that the document's substitutions name is missing from the fork. */
  predicate SomeBranchMissing(w: World, raw: RawManifest)
    requires Acceptable(raw)
  {
    exists r :: r in raw.stack.entries && r.rebased.Some? && r.rebased.value.RawRebased?
                && w.forkRef(r.rebased.value.ref).None?
  }

  lemma MissingIsSeen(w: World, raw: RawManifest)
    requires Acceptable(raw)
    ensures (exists e :: e in Parsed(raw).stack && RefMissing(w, e)) <==> SomeBranchMissing(w, raw)
  {
    var stack := Parsed(raw).stack;
    if r :| r in raw.stack.entries && r.rebased.Some? && r.rebased.value.RawRebased?
            && w.forkRef(r.rebased.value.ref).None? {
      var k :| 0 <= k < |raw.stack.entries| && raw.stack.entries[k] == r;
      assert RefMissing(w, stack[k]) && stack[k] in stack;
    }
    if e :| e in stack && RefMissing(w, e) {
      var k :| 0 <= k < |stack| && stack[k] == e;
      assert raw.stack.entries[k] in raw.stack.entries;
    }
  }

  /** The lock file beside a manifest and the refs of the fork, as one run changes them. */
  class Release {
    var disk: LockFile
    var refs: Refs

    constructor (disk: LockFile, refs: Refs)
      ensures this.disk == disk && this.refs == refs
    {
      this.disk := disk;
      this.refs := refs;
    }

    method ReconcileLock(lock: Lock, flags: Flags) returns (ok: bool)
      modifies this`disk
      ensures ok <==> Reconcile(old(disk), lock, flags) != Refuse
      ensures disk == if Reconcile(old(disk), lock, flags) == Write then Holds(lock) else old(disk)
      ensures ok && !(flags.allowRewrite && !flags.writeLock) ==> disk == Holds(lock)
    {
      if disk == Holds(lock) { return true; }
      if !disk.Holds? {
        if !flags.writeLock { return false; }
        disk := Empty;
        disk := Holds(lock);
        return true;
      }
      if !flags.allowRewrite { return false; }
      if flags.writeLock {
        disk := Empty;
        disk := Holds(lock);
      }
      return true;
    }

    method PushRef(src: string, dst: string)
      modifies this`refs
      ensures refs == old(refs)[dst := src]
    {
      var expected := Lookup(refs, dst);
      if LeasedPushLands(Lookup(refs, dst), expected, src) {
        refs := refs[dst := src];
      }
    }

    method EnsureBaseBranch(m: Manifest, lock: Lock) returns (ok: bool)
      modifies this`refs
      ensures ok <==> Lookup(old(refs), BaseRef(m)) in {None, Some(lock.baseSha)}
      ensures refs == if ok then old(refs)[BaseRef(m) := lock.baseSha] else old(refs)
    {
      var current := Lookup(refs, BaseRef(m));
      if current == Some(lock.baseSha) {
        assert refs[BaseRef(m) := lock.baseSha] == refs;
        return true;
      }
      if current.None? {
        refs := refs[BaseRef(m) := lock.baseSha];
        return true;
      }
      return false;
    }

    /** Base, mirrors in stack order, stack branch; stops at the first failure. */
    method PushAndReview(m: Manifest, lock: Lock) returns (code: int, body: seq<Line>)
      modifies this`refs
      ensures (code, refs) == PublishFrom(Plan(m, lock), 0, old(refs))
      ensures code == 0 ==> body == Body(m, lock)
    {
      var ok := EnsureBaseBranch(m, lock);
      if !ok { return 1, []; }
      ghost var plan := Plan(m, lock);
      assert PublishFrom(plan, 0, old(refs)) == PublishFrom(plan, 1, refs) by {
        if Lookup(old(refs), BaseRef(m)) == Some(lock.baseSha) { assert refs == old(refs); }
      }
      var index := 1;
      while index <= |m.stack|
        invariant 1 <= index <= |m.stack| + 1
        invariant PublishFrom(plan, 0, old(refs)) == PublishFrom(plan, index, refs)
      {
        assert plan[index] == MirrorOp(m, lock, index - 1);
        var target := MirrorTarget(m.stack[index - 1], lock);
        if target.None? { return 1, []; }
        PushRef(target.value, MirrorRef(m, index));
        index := index + 1;
      }
      PushRef(lock.branchSha, BranchRef(m));
      body := PrBody(m, lock);
      code := 0;
    }

    /** main: refuses a bad or frozen manifest, builds, reconciles, publishes. */
    method CombineRelease(w: World, raw: RawManifest, fork: string, flags: Flags) returns (code: int)
      modifies this
      ensures !Acceptable(raw) ==> code == 1 && disk == old(disk) && refs == old(refs)
      ensures Acceptable(raw) ==>
                (code, disk, refs) == Outcome(JobOf(w, Parsed(raw), fork, flags), old(disk), old(refs))
      ensures Acceptable(raw) && flags.checkRefs ==>
                code == (if SomeBranchMissing(w, raw) then 1 else 0) && disk == old(disk) && refs == old(refs)
      ensures Acceptable(raw) && !flags.checkRefs && raw.frozen && (flags.skipFrozen || !flags.allowRewrite) ==>
                code == (if flags.skipFrozen then 0 else 1) && disk == old(disk) && refs == old(refs)
    {
      var parsed := ParseManifest(raw);
      if parsed.Failure? { return 1; }
      var m := parsed.value;
      assert m == Parsed(raw);
      ghost var job := JobOf(w, m, fork, flags);
      if flags.checkRefs {
        MissingIsSeen(w, raw);
        var missing := exists e :: e in m.stack && RefMissing(w, e);
        return if missing then 1 else 0;
      }
      if m.frozen && flags.skipFrozen { return 0; }
      if m.frozen && !flags.allowRewrite { return 1; }
      var base := w.baseOf(m.base);
      if base.None? { return 1; }
      var worktree := new Worktree(w.git, base.value);
      var built := worktree.BuildRelease(w, m, fork);
      if built.Failure? { return 1; }
      var lock := built.value;
      assert job == Job(m, Some(lock), flags, job.refsMissing) && !Refused(job);
      var ok := ReconcileLock(lock, flags);
      if !ok { return 1; }
      if flags.dryRun { return 0; }
      var published, _ := PushAndReview(m, lock);
      return published;
    }
  }
}
