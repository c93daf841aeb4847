# Verification of the release stack, the shim and the installer

This project models the code of this repository that decides something and proves properties of
the models with Dafny 4.11. `dafny verify dfyconfig.toml` checks everything.

**The release-stack combiner** (`tools/stack.py`).

- `Manifests`: what a manifest must be to be read. `rebased.map` is an insertion-ordered list of
  pairs, because the code takes the first key that matches.
- `Selection`: prefixes resolved on a pull request head, the dictionary filled by picks and then
  skips, its inversion, the lookup `chosen[p]`, and the substitution map. The lookup's `KeyError`
  is the error `Aliased`: the validation in the parser leaves it as the only sign that two
  prefixes name one commit.
- `Chain`: a commit is its content, and its name is a function of it. A cherry-pick is a partial
  step built from an abstract three-way merge. `Build` is the fold, `Worktree.BuildRelease` the
  loops.
- `Review`: mirrors and the review body.
- `RefNames`: the refs involved.
- `Publishing`: any number of runs and outside actors over one lock file and one set of fork
  refs. One step is one file write, one remote read or one push. Writing the lock is two steps,
  truncating and filling, since an empty file loads as no lock.
- `Convergence`: stopping a run anywhere, any number of times, and running it again.
- `Releases`: the imperative code of one run, proved equal to the step machine run to its end.

**The shim** (`changes/*.go`).

- `ShimProcess`: the exit record and the kill loop. `ShimService`: the registry and the handling
  of one exit as written.
- `ShimExits`: the exit thread, the event queue, the forwarder, and the RPC threads that send
  events or read an exit record, interleaved in every way. The two critical sections of a status
  read are two steps.
- `ShimLocks`: every request, wait goroutine and exit as a program over mutexes, what they protect,
  and channels.
  `ShimDeadlock`: any number of them interleaved, with lock ownership and bounded queues.
- `Restore`: the routing of `Start`, and the sentry's restore states as docs/HLD.md gives them.
- `PodCgroup`: the pod cgroup search on strings, with `filepath.Join` and `filepath.Clean`
  including `.` and `..`.

**The installer** (`scripts/install.sh`): `InstallConfig`, the rewrite of the containerd
configuration on arbitrary text.

## Where properties fail, and exactly when

- Runs without `--allow-rewrite` keep the promise of the lock in every interleaving if and only if
  a lock is committed or at most one of them is to write it (`PromiseHoldsIff`). Two first-time
  writers can both pass the comparison before either has written, and then the first publishes a
  stack branch that is not the one the lock ends up recording (`TwoWritersDiverge`).
- A run that nobody disturbs publishes a stack that the lock on disk does not record if and only
  if another lock is committed, `--allow-rewrite` is given without `--write-lock`, and nothing
  stops the publication (`PublishesUnrecordedIff`).
- A tag whose stripped form is `base-` and the base gives the stack branch the name of its own
  base branch (`BranchIsBaseIff`). The push of the base then lands on the stack branch too, which
  is the one exception in `Promised`. Stopping and rerunning, and rerunning a finished release,
  are harmless if and only if the run is not one that publishes such a branch with a stack on it
  (`CrashAndRerunConverges`, `FinishedRunIsStable`).
- Tags outside the documented form can share a branch: exactly when one is the other behind the
  prefix that is dropped (`BranchesEqualIff`).
- The parser does not require distinct pull request numbers. The review body and the groups
  repeat commits exactly when two entries share one (`BodyListsStackIffDistinct`).
- `State` can pair a status with the exit time of a process that exited with another, because the
  two are read under separate locks: about a process that exited with some status if and only if
  that status is not 0, and the status reported is then 0 (`TornReadIff`,
  `AnswersAreWholeOrTorn`).
- Restored containers get the checkpoint's identities one to one if and only if the names differ on
  both sides and the checkpoint knows those of the restored ones (`RemapIsBijectionIff`).
- A timeout of `kill` that has passed before the first check returns nil without an attempt
  (`Kill`).
- `setPodCgroup` joins an absolute path as a relative one and puts the separator back. A cut that
  climbs above the root keeps a `..` that cleaning would drop (`PodPathIsCleanIff`).
- The installer leaves the passthrough out when a runsc runtime exists, there is nothing to
  extend and the exact marker line is missing (`PassthroughIff`).

Documentation that the code does not follow, the code being what is modelled: the comment in
`Start` (changes/runsc_service.go:272-275) says that an unreadable spec surfaces an error, but the
code logs and starts cold (`RootDecides`); docs/CHECKPOINT-RESTORE.md names the annotation
`dev.gvisor.internal.restore.host-image-path`, but the code reads
`dev.neevcloud.restore-image-path`.

## Model

| member | source | states |
|---|---|---|
| Manifests.DistinctIffCount | tools/stack.py:127-129 | comparing the size of a set with the length of the list detects exactly the duplicates |
| Manifests.ParseEntryAccepts | tools/stack.py:116-144 | an entry is accepted if and only if what it denotes is valid: required keys, pick and skip disjoint and free of duplicates, substituted prefixes picked |
| Manifests.FaultsAreReal | tools/stack.py:116-142 | a reported fault is one: the key is missing, the prefixes are exactly those in both lists, the list repeats one, or the mapping names exactly these unpicked ones |
| Manifests.ParseManifest | tools/stack.py:104-146 | a document is accepted if and only if all of it is acceptable; entries keep their order; otherwise the first top-level fault is reported, and with none the first faulty entry with its first fault |
| Selection.ResolveIffNamesOnly | tools/stack.py:220-228 | a prefix resolves to a commit if and only if exactly one position of the head starts with it |
| Selection.ResolveDetermines | tools/stack.py:220-228 | a resolving prefix leads to a commit of the head and no other commit starts with it |
| Selection.CheckExhaustive | tools/stack.py:231-253 | the two loops and the inversion compute the declared specification, with the first failing prefix's error |
| Selection.Declare | tools/stack.py:238-241 | every prefix a declaring loop records resolves to the commit it is recorded under |
| Selection.DeclareOutcome | tools/stack.py:238-241 | a loop fails if and only if some prefix does not resolve; a recorded commit was declared here, or earlier and not again |
| Selection.ExhaustiveOutcome | tools/stack.py:231-253 | once all prefixes resolve, the check passes if and only if each commit on the head is named by one of them |
| Selection.SelectIffExactPartition | tools/stack.py:231-253 | the whole selection succeeds if and only if the head is non-empty, each prefix names exactly one position, every commit is named, and a picked commit is named once only |
| Selection.PickNamesAlone | tools/stack.py:253-253 | after a successful selection no other prefix, picked or skipped, names a picked commit |
| Selection.SelectionIsFilteredHead | tools/stack.py:341-356 | on success the head has no duplicates and the selection is the head filtered to the picked commits in head order |
| Selection.SelectionCounts | tools/stack.py:341-356 | one commit per pick; picks and distinct skipped commits together count the whole head |
| Selection.SelectionIgnoresListing | tools/stack.py:341-356 | reordering pick or skip changes neither success nor the selection |
| Selection.SelectionErrorsAreReal | tools/stack.py:220-253 | each refusal names what is wrong: a prefix that names nothing or two positions, exactly the commits nobody names, or a pick whose commit another prefix names too |
| Selection.SubstitutionIsUnambiguous | tools/stack.py:204-217 | at most one substitution key matches an applied commit, and it is substituted if and only if the pick that names it is a key, by that key's value |
| Selection.SubstitutionIgnoresMapOrder | tools/stack.py:204-217 | the order of the substitution map is irrelevant on applied commits |
| Selection.UnvalidatedOverlapIsApplied | tools/stack.py:122-126 | without the parser's overlap check a prefix in both lists would be applied although skipped |
| RefNames.DecimalRoundTrip | tools/stack.py:467-473 | the two-digit form of any natural number reads back as that number |
| RefNames.NamesAreAsDocumented | tools/stack.py:86-95 | the refs read as documented: mirrors end in their position in two digits or more, branches lie under neev/ with the prefix of the tag dropped |
| RefNames.MirrorRefInjective | tools/stack.py:467-473 | mirrors of one manifest coincide if and only if their positions do, also past ninety-nine |
| RefNames.MirrorIsNoOtherRef | tools/stack.py:86-95 | no mirror is any manifest's base branch or its own stack branch |
| RefNames.BranchInjective | tools/stack.py:86-90 | tags starting with gvisor- have the same branch if and only if they are equal |
| RefNames.BranchesEqualIff | tools/stack.py:86-90 | any two tags share a branch if and only if they are equal or one is the other with the dropped prefix, which the other lacks |
| RefNames.BranchIsBaseIff | tools/stack.py:86-95 | stack branch and base branch coincide if and only if the stripped tag is base- followed by the base |
| Chain.Worktree.CherryPick | tools/stack.py:295-325 | moves HEAD to the transplant, whose contents CherryCarriesTheChange gives; on any failure HEAD stays, and what git left in progress has been aborted |
| Chain.Worktree.BuildRelease | tools/stack.py:328-367 | the nested loops give the lock of the fold, whose fields LockNamesItsInputs and BuildIsOneChain give, or the first error, with HEAD where the fold stopped |
| Chain.BuildIsOneChain | tools/stack.py:328-367 | HEAD is exactly as many first-parent steps above the base as commits are recorded, step k is the recorded cherry k, branch_sha names HEAD and the version stamp describes it |
| Chain.LockNamesItsInputs | tools/stack.py:337-367 | the lock carries the manifest's tag and base, the commit of the base tag, the branch of the tag, and the fork |
| Chain.BuildSucceedsIff | tools/stack.py:328-367 | a build succeeds if and only if base and branches are there, every selection and substitute resolves, and cherry-picking all of them in order onto the base succeeds; interleaving resolving and picking makes no difference |
| Chain.BuildErrorsAreReal | tools/stack.py:210-215 | a failed build blames an entry of the stack with what is wrong with it: its selection, an unknown substitute, a commit that does not apply |
| Chain.AncestorIffPath | tools/stack.py:216-216 | a substitute is accepted as an ancestor if and only if a path over any parents leads from the fetched branch to it |
| Chain.CherryCarriesTheChange | tools/stack.py:313-313 | a cherry carries its commit's change and nothing else, onto whatever HEAD: path by path, HEAD's content where the commit changes nothing, the commit's where HEAD is as before it; author, author date and message are the commit's |
| Chain.StackLeavesOtherPaths | tools/stack.py:353-356 | what no applied commit changes is on the branch as on the base tag |
| Chain.EmptyPickFails | tools/stack.py:312-324 | a commit that changes nothing cannot be picked |
| Chain.OwnParentPick | tools/stack.py:312-324 | onto its own parent a commit can be picked if and only if it changes something |
| Chain.BuildReproduces | tools/stack.py:295-325 | cherry k is what picking the first k+1 applied commits onto the base gives; nothing else enters |
| Chain.CommonPrefixSharesCherries | tools/stack.py:295-325 | two releases on one base whose applied commits agree up to k have the same cherries up to k |
| Chain.TransplantIsCanonical | tools/stack.py:27-30 | every cherry carries the fixed committer and its author date as committer date, on the given parent |
| Chain.CanonicalIffFixpoint | tools/stack.py:295-325 | picking a commit onto its own parent gives the identical commit if and only if it is canonical |
| Chain.ReplayingCherriesIsIdentity | tools/stack.py:295-325 | replaying a build's cherries on its base gives back its branch |
| Chain.ReplayingCherriesStepwise | tools/stack.py:295-325 | and the identical commit after every step |
| Chain.LockIgnoresListing | tools/stack.py:341-356 | the lock is unchanged by permuting pick, skip or the substitution map |
| Chain.LockIsSegments | tools/stack.py:353-356 | the lock is one segment per entry in stack order: each selected commit once, in head order, as itself or as its substitute, every substitute an ancestor of the fetched branch |
| Review.GroupConcat | tools/stack.py:445-445 | regrouping by number distributes over concatenation |
| Review.GroupsConserveIffDistinct | tools/stack.py:443-447 | the per-entry groups concatenate to the recorded picks if and only if no number is used twice; otherwise there are more of them |
| Review.BuildConservesIffDistinct | tools/stack.py:443-447 | for every build, groups give back the lock if and only if numbers are distinct, and every entry has a mirror target |
| Review.MirrorHoldsLastPick | tools/stack.py:476-486 | a mirror holds the last picked commit in head order of the last entry with its number, picked there and never skipped there |
| Review.AppendBullets | tools/stack.py:445-446 | the inner loop appends one bullet per pick |
| Review.PrBody | tools/stack.py:429-451 | the loops render the specified body |
| Review.BodyReadsBack | tools/stack.py:436-451 | the body read back is one part per entry in order, under its own reason, with the commits recorded for its number; tag, base and version stamp come first |
| Review.ShortIsPrefix | tools/stack.py:446-446 | a commit is shown by its first ten characters |
| Review.BodyListsStackIffDistinct | tools/stack.py:429-451 | the bullets are the recorded cherries in order, each once, if and only if numbers are distinct |
| Review.BodyCarriesNothingUpstream | tools/stack.py:432-435 | replacing every number, source, upstream and applied commit leaves the body unchanged |
| Publishing.PlanRefs | tools/stack.py:531-535 | only the last operation writes the stack branch, with branch_sha, unless the branch is the base; only the first is the base's |
| Publishing.StepKeepsPromise | tools/stack.py:392-426 | a step changes the file only between comparing and having written, and leaves that gap with its own lock on disk |
| Publishing.NextKeepsInv | tools/stack.py:602-633 | one action of any run, crash or outside actor keeps a non-empty lock and the promise it makes |
| Publishing.HistoryKeepsPromise | tools/stack.py:392-426 | over any history without allow-rewrite, one writer at a time, a non-empty lock never changes and every value ever put on the stack branch is branch_sha of the lock on disk (or the base, on a branch that is its own base) |
| Publishing.CommittedLockNeedsNoExclusion | tools/stack.py:392-426 | with a lock committed the same holds for any number of concurrent runs |
| Publishing.OneWriterSuffices | tools/stack.py:402-411 | if at most one of the runs launched is to write the lock, no two are ever between comparing and having written |
| Publishing.PromiseHoldsIff | tools/stack.py:392-426 | for any set of runs without allow-rewrite: lock and stack pushes keep the promise in every interleaving with crashes and outside actors if and only if a lock is committed or at most one run is to write it |
| Publishing.StackPushesAgree | tools/stack.py:535-535 | any two pushes of the stack branch in such a history carry the same SHA, unless the branch is its own base |
| Publishing.TwoWritersDiverge | tools/stack.py:402-411 | for two first-time writers of one branch with different stacks, the first of them publishing, and any fork: a schedule after which the stack branch has been pushed with a SHA that is not the one in the lock on disk |
| Publishing.IdleRunsChangeNothing | tools/stack.py:606-621 | over whole histories, runs that only check refs, runs of a frozen manifest that step over or refuse it, and runs whose build fails change neither lock nor log nor refs |
| Publishing.StepRespectsLease | tools/stack.py:454-464 | a step changes at most one ref, one of the job's own, and only where it still holds the leased value or its own; a push that does not land changes nothing and stops the run |
| Publishing.LandedReplacesWhatWasRead | tools/stack.py:463-464 | over every history, each push that landed has an earlier step in which its run read that ref, with no step of that run in between: what it replaced is what stood there at the read, or its own value; the base is pushed only where nothing was read |
| Publishing.MirrorsPrecedeBranch | tools/stack.py:531-535 | over every history, each push of a stack branch was preceded by the same run's pushes of every entry's mirror |
| Publishing.ForeignRefsUntouched | tools/stack.py:514-535 | over whole histories a ref that is no run's base, mirror or branch holds what outside actors put there |
| Convergence.FinishPublishes | tools/stack.py:531-535 | from any operation on, the undisturbed step machine ends as the closed form of the remaining plan |
| Convergence.FinishIsOutcome | tools/stack.py:602-635 | an undisturbed run ends in the closed-form exit code, lock file and refs |
| Convergence.IdleOutcome | tools/stack.py:602-621 | checking refs comes first and only reports what is missing; then a frozen manifest is stepped over or refused; then a failed build stops the run; none changes anything |
| Convergence.BuiltOutcome | tools/stack.py:400-426 | for each state of the lock file and each pair of write and rewrite flags: whether the run goes on, and with which lock on disk |
| Convergence.StepKeepsRerun | tools/stack.py:392-426 | no single write or push changes what a rerun ends in |
| Convergence.CrashAndRerunConverges | tools/stack.py:622-633 | stopped after any step, any number of times, under any flags, one uninterrupted rerun ends like a run never interrupted: for all stops if and only if the run is not fragile, which only a branch that is its own base can make it |
| Convergence.FinishedRunIsStable | tools/stack.py:582-642 | running a finished release again gives the same exit code and changes neither lock nor refs, if and only if the run was not fragile |
| Convergence.PublishSucceedsIff | tools/stack.py:489-535 | publication succeeds if and only if the base branch is absent or pristine and every entry has a mirror target; a moved base changes nothing |
| Convergence.PublishedRefs | tools/stack.py:531-535 | afterwards base, every mirror and stack branch hold what the lock says |
| Convergence.PublishesUnrecordedIff | tools/stack.py:392-426 | a run ends well with its stack on the branch and another lock on disk if and only if another lock is committed, a rewrite is allowed and not asked for, and nothing stops the publication; the SHAs then differ exactly when the stacks do |
| Convergence.PublishLeavesOtherRefs | tools/stack.py:514-535 | every other ref is as before, also on failure |
| Convergence.PlanRefsDistinct | tools/stack.py:531-535 | no two operations of one publication write the same ref |
| Convergence.RerunFailsWhenBranchIsBase | tools/stack.py:489-511 | when branch and base coincide, a completed release fails when run again |
| Releases.Release.ReconcileLock | tools/stack.py:392-426 | passes, writes or refuses as decided; on passing the file holds the lock, unless rewriting is allowed and not asked for |
| Releases.Release.PushRef | tools/stack.py:454-464 | undisturbed, a leased push sets exactly its ref |
| Releases.Release.EnsureBaseBranch | tools/stack.py:489-511 | succeeds if and only if the base is absent or pristine, and never moves an existing one |
| Releases.Release.PushAndReview | tools/stack.py:514-551 | the loop over entries ends as the closed form of the plan; on success the body is the specified one |
| Releases.Release.CombineRelease | tools/stack.py:582-642 | a bad manifest changes nothing; checking refs changes nothing and reports whether a branch is missing; a frozen manifest is stepped over or refused; otherwise exit code, lock and refs are the outcome of the step machine for what was built |
| Releases.JobIsWellBuilt | tools/stack.py:358-367 | what a run publishes carries its manifest, and exists if and only if the build succeeded |
| Releases.PublishedIsBuilt | tools/stack.py:531-535 | a release on an absent or pristine base succeeds and leaves the base tag's commit on the base branch, the tip of the stack on the stack branch, and each entry's last picked commit on its mirror |
| ShimProcess.FirstExitWins | changes/proc_init.go:297-308 | over any sequence of calls status and time are those of the first, and the wait channel is closed exactly once |
| ShimProcess.Process.SetExited | changes/proc_init.go:290-308 | one call settles the record as specified and never closes the channel twice |
| ShimProcess.Kill | changes/proc_init.go:376-401 | nil if and only if some attempt succeeded (or none was made since the timeout had passed); which reply ends the loop; how many attempts fit the timeout; the sleep requested |
| ShimProcess.KillBounds | changes/proc_init.go:376-401 | n attempts mean b(2^(n-1) - 1) is below the timeout; total sleep b(2^n - 1) is below twice the timeout plus b; at most four attempts with the shipped constants |
| ShimService.Container.All | changes/runsc_container.go:222-234 | returns exactly the container's processes, each entry once, the init last |
| ShimService.Container.ProcessAdd | changes/runsc_container.go:267-271 | afterwards the container has the process in place of the one that had its ID, and otherwise the same ones |
| ShimService.Container.ProcessRemove | changes/runsc_container.go:274-278 | afterwards exactly the process that had the ID is gone |
| ShimService.Service.Find | changes/runsc_service.go:605-622 | the search finds a registered process with the ID if and only if there is one, and the container it is in |
| ShimService.Service.HandleExit | changes/runsc_service.go:628-651 | appends exactly one segment of the protocol and settles the record |
| ShimService.Service.CheckProcesses | changes/runsc_service.go:602-652 | an exit nobody has does nothing; any other appends one segment, settles that process and touches no other |
| ShimService.HandledActs | changes/runsc_service.go:628-651 | the acts of one segment spelled out, in order, with the exit's own status and the recorded time |
| ShimService.Service.Exec | changes/runsc_service.go:331-350 | the new process is registered if and only if the container has its init, knows no process under the ID, and the init makes one; nothing else changes |
| ShimService.Service.Delete | changes/runsc_service.go:302-328 | reports the record of the process named; a process of exec is unregistered alone, an init with its whole container; otherwise nothing changes |
| ShimExits.NextKeepsInv | changes/runsc_service.go:596-656 | every action of every thread keeps histories, records and readers consistent |
| ShimExits.ReachableInv | changes/runsc_service.go:596-656 | so every reachable state is consistent: published and queued events are the sent ones in order, the exit thread's acts are whole segments and part of one |
| ShimExits.ExitEventsAreHandledExits | changes/runsc_service.go:644-655 | the exit events are exactly the handled exits, one each, in the order taken; the rest were dropped |
| ShimExits.TakeDropsIffUnregistered | changes/runsc_service.go:605-625 | an exit is dropped only when no registered process has its ID, and can be handled exactly when one has |
| ShimExits.ExitOrder | changes/runsc_service.go:628-651 | in every interleaving: KillAll (init), then the record, then at most one OOM event (init), then the exit event, contiguous on the exit thread |
| ShimExits.ExitActs | changes/runsc_service.go:628-651 | the same act by act: killed, then recorded, then perhaps the OOM event, then the exit event, next to each other |
| ShimExits.ExitsAreTakenInOrder | changes/runsc_service.go:596-600 | the exit queue loses nothing and keeps its order over any actions |
| ShimExits.TakenExitIsReported | changes/runsc_service.go:602-651 | an exit taken for a process is the next to be handled, and is reported with its own ID and status for that process and container |
| ShimExits.OomFollowsTheAnswer | changes/runsc_service.go:642-644 | each handled exit of an init was asked about, and is announced as an OOM kill if and only if the answer was yes; other exits never are |
| ShimExits.FirstHandledExitIsRecorded | changes/proc_init.go:297-308 | the readable status and time of a process are those of its first handled exit |
| ShimExits.ExitEventIsReadable | changes/runsc_service.go:633-651 | a queued exit event quotes the readable time, and the readable status if and only if it repeats the first |
| ShimExits.ReadersAgree | changes/runsc_service.go:302-406 | Wait, and a State or Delete that begins to read after the exit, return what the first exit event says |
| ShimExits.WaitIsSure | changes/runsc_service.go:577-594 | a Wait that got past the channel is such a reader, for good |
| ShimExits.AnswersAreWholeOrTorn | changes/runsc_service.go:387-405 | every answer says that the process runs, or what its exit was, or is torn: begun before the exit, reporting 0 for an exit that was not |
| ShimExits.TornReadIff | changes/runsc_service.go:387-405 | a torn answer about a process that exited with a given status is reachable if and only if that status is not 0 |
| ShimExits.TornRead | changes/runsc_service.go:387-405 | a schedule in which State reads status 0 before, and the exit time after, that same process exits with a given status |
| ShimLocks.RequestsAreSafe | changes/runsc_service.go:187-594 | every request nests at most a container mutex under s.mu, keeps p.mu a leaf, and sends, waits and checkpoints holding nothing |
| ShimLocks.CheckIsSafe | changes/runsc_service.go:602-652 | so does the handling of an exit, which besides neither waits for an exit nor sends one nor checkpoints |
| ShimLocks.WaiterIsSafe | changes/proc_init.go:254-266 | so does the wait goroutine |
| ShimLocks.CutIsSafe | changes/runsc_service.go:188-189 | returning early from any point, with the deferred unlocks, keeps the discipline |
| ShimDeadlock.NextKeepsInv | changes/runsc_service.go:100-125 | every action keeps mutexes exclusive and every thread's remainder disciplined |
| ShimDeadlock.ReachableInv | changes/runsc_service.go:100-125 | so from the initial state every reachable state is such, for any number of threads |
| ShimDeadlock.HolderOfInnerDoesNotWait | changes/runsc_service.go:609-610 | a thread that waits while holding a mutex holds s.mu for a container mutex whose holder waits for none |
| ShimDeadlock.WaitPathsAreShort | changes/runsc_service.go:604-622 | waiting for mutexes is at most two deep |
| ShimDeadlock.WaitsForIsAcyclic | changes/runsc_service.go:604-622 | no thread waits for itself, directly or through others |
| ShimDeadlock.BlockingHoldsNothing | changes/proc_init.go:276-287 | a thread at a send, a wait or a checkpoint holds no mutex and is waited for by nobody |
| ShimDeadlock.QueuesBalance | changes/runsc_service.go:654-693 | over any schedule, what is in each queue is what was sent to it and not yet received |
| ShimDeadlock.NoRace | changes/runsc_service.go:100-125 | in every reachable state no two threads use what one mutex protects |
| ShimDeadlock.LockWaitersAreServed | changes/runsc_service.go:167-202 | whoever needs a mutex is behind a thread that can step |
| ShimDeadlock.ExitHandlingProgresses | changes/proc_init.go:276-287 | while an exit is to be handled the exit thread, one it is behind, or the forwarder can step, and that one is in no checkpoint of whatever length |
| ShimDeadlock.NoDeadlock | changes/runsc_service.go:654-693 | while any thread is blocked on a mutex or on a full queue, some thread can step |
| ShimDeadlock.TakenExitWillSignal | changes/proc_init.go:290-308 | taking an exit whose process is found obliges the exit thread to close its wait channel |
| ShimDeadlock.HandledExitReleasesWaiters | changes/proc_init.go:180-182 | in every interleaving, once the exit thread is done with that exit each Wait for the process can go on, for good |
| ShimDeadlock.WaitReadsAfterExit | changes/runsc_service.go:577-594 | in every interleaving, whenever a Wait is about to read the exit record the exit has been signalled |
| ShimDeadlock.WaitStartsAnswering | changes/runsc_service.go:577-594 | and each Wait starts out so, also one cut short |
| ShimLocks.WaitShape | changes/runsc_service.go:577-594 | a Wait looks up container and process, awaits the exit, and reads the record twice |
| Restore.Service.Start | changes/runsc_service.go:262-299 | routes to restore or cold start as specified; an init whose readable spec names an image is never started cold |
| Restore.Service.RestoreInit | changes/runsc_container.go:396-407 | a restore that fails leaves everything as it was and does not fall back |
| Restore.Service.StartProcess | changes/runsc_container.go:281-290 | the cold path for an init without image, or an exec |
| Restore.StartAnswers | changes/runsc_service.go:262-299 | every answer by its cases: an exec is started if and only if registered and the runtime works; an init cold if and only if not started before, the runtime works, and the spec is unreadable or has no path; restored only from the path its spec names |
| Restore.StartsOnce | changes/proc_init.go:228-253 | an init that has been started is never started again |
| Restore.AnnotatedPodsResumeExactly | changes/runsc_service.go:262-299 | any starts, in any order, with any failures: an annotated pod never runs cold and resumes if and only if as many containers are started as the checkpoint holds |
| Restore.AcceptedIff | docs/HLD.md:64-80 | a start restores if and only if it is the first, of the root, or of a sub-container while something is restored and something missing; otherwise it is rejected and changes nothing |
| Restore.RootFirstRestoresAll | docs/HLD.md:115-121 | root first, all containers of the pod are restored if and only if the checkpoint holds at least as many, and the kernel resumes at the last |
| Restore.RemapIsBijectionIff | docs/HLD.md:82-98 | the new IDs are a bijection from the checkpointed containers to the restored ones if and only if names differ within the checkpoint and among the restored, and the checkpoint knows the latter |
| Restore.ColdStaysCold | docs/HLD.md:60-62 | into a sandbox that runs cold nothing is ever restored |
| Restore.RootDecides | changes/runsc_service.go:271-292 | the root starts cold, and rules out every later restore, if and only if its spec is unreadable or names no image |
| PodCgroup.Split | changes/runsc_service.go:773-773 | there is at least one component, and none contains the separator |
| PodCgroup.SplitAtSeparator | changes/runsc_service.go:773-773 | splitting distributes over joining with a separator |
| PodCgroup.SplitOfGlue | changes/runsc_service.go:773-773 | components that are glued split into themselves |
| PodCgroup.GlueOfSplit | changes/runsc_service.go:773-773 | and a split path glues to itself |
| PodCgroup.PodCut | changes/runsc_service.go:774-775 | the cut ends with the last component that starts with pod, and is none if and only if there is no such component |
| PodCgroup.JoinStep | changes/runsc_service.go:776-779 | joining one more component to what earlier ones gave, with cleaning at each step, normalises them all together |
| PodCgroup.JoinFront | changes/runsc_service.go:776-779 | the inner loop gives the normal form of the first components |
| PodCgroup.FindPod | changes/runsc_service.go:773-783 | the search and the joining give the normalised cut with its leading separator, if there is a pod component |
| PodCgroup.LastPod | changes/runsc_service.go:774-775 | the outer loop finds the end of the cut |
| PodCgroup.AnnotationIsAdded | changes/runsc_service.go:763-795 | exactly when the spec is a sandbox's with a pod path that differs, that path is put under the one key; every other annotation keeps its value, none is added, and the rest stays |
| PodCgroup.Spec.SetPodCgroup | changes/runsc_service.go:763-795 | has the effect that AnnotationIsAdded describes, and reports whether there was one |
| PodCgroup.SuffixIsIgnored | changes/runsc_service.go:774-775 | whatever follows, holding no pod component, does not change the result |
| PodCgroup.PodPathIsFixed | changes/runsc_service.go:784-786 | the pod path is its own pod path |
| PodCgroup.SecondCallAgrees | changes/runsc_service.go:784-791 | a second call reports and writes the same; with the result as path it reports false |
| PodCgroup.PodPathIsCleanIff | changes/runsc_service.go:776-783 | the pod path is filepath.Clean of the cut if and only if the path is relative or no `..` is met at the root |
| PodCgroup.PodPathIsCleanRelative | changes/runsc_service.go:776-783 | in every case the pod path is filepath.Clean of the cut as a relative path, with the separator in front when absolute |
| InstallConfig.FindFrom | scripts/install.sh:31-33 | finds the first occurrence, or none if there is none |
| InstallConfig.NoneLeft | scripts/install.sh:35-35 | after replacing, no occurrence is left or has been created |
| InstallConfig.ReplaceBack | scripts/install.sh:35-35 | replacing back restores a text that did not have the replacement |
| InstallConfig.ConfigFile.Rewrite | scripts/install.sh:26-47 | the branches rewrite the text as AppendKeepsText, InsertionKeepsText and ExtensionIsReversible describe, and the file is written unless the passthrough is there |
| InstallConfig.PassthroughIff | scripts/install.sh:26-47 | afterwards the passthrough is there unless a runsc runtime exists with nothing to extend and without the marker line |
| InstallConfig.ChoiceIsByContents | scripts/install.sh:31-45 | which of the four cases a text falls under, and that the first changes nothing |
| InstallConfig.AppendKeepsText | scripts/install.sh:37-41 | without any sign of the runtime the old text stays in front of one runtime block: header, marker line, both annotation lines |
| InstallConfig.InsertionKeepsText | scripts/install.sh:42-46 | otherwise both annotation lines are inserted right after the first marker line and all else stays; without a marker line nothing changes |
| InstallConfig.RewriteIsIdempotent | scripts/install.sh:24-47 | installing twice is installing once, on every text |
| InstallConfig.ExtensionIsReversible | scripts/install.sh:33-36 | extending leaves no old passthrough and the reverse replacement gives the text back |

## Left out

- HistoryKeepsPromise: a write torn inside the file is not modelled, only truncated and filled. That at most one run writes the lock at a time is its hypothesis; PromiseHoldsIff says which sets of runs guarantee it.
- CrashAndRerunConverges: assumes that a rerun builds the same lock, as BuildReproduces gives for unchanged inputs.
- PublishedRefs: for a stack branch that is not its own base; on the other shape of tag only the branch is determined, by its own push.
- RemapIsBijectionIff: leaves out the `container-name-remap` annotation.
- PodCgroup.Spec.SetPodCgroup: takes whether the spec is a sandbox's as a field, because `utils.IsSandbox` is not part of this repository.
- ShimDeadlock.NoRace: covers the service's containers, a container's processes and a process's exit record; fields set at creation, such as a process's pid or a container's init, are read without a mutex and are not covered.
- ShimDeadlock.NoDeadlock: assumes that both channels have room for one element; the capacity of `ExitCh` is not in the repository. The forwarder's publisher is assumed not to fail (the code panics then), and closing the event channel at shutdown is not modelled.
- ShimExits.TakeDropsIffUnregistered: the registry changes freely between exits but each lookup is one step, as it is under `s.mu`.
- ShimLocks.RequestsAreSafe: treats the mutex of a process started by exec as a leaf like an init's, and waiting for I/O to drain in Delete as a call of any length under it; the file is not part of this repository.
- ShimDeadlock.HandledExitReleasesWaiters: a process whose start fails is settled by its state, in files that are not part of this repository; only exits that the exit thread handles are modelled.
- ShimService.Service.Delete: whether a process lets itself be deleted is an arbitrary input, so nothing is said about whether Delete can answer before the exit.
- AnnotatedPodsResumeExactly: assumes that an init starts successfully at most once, which its states, not in the repository, ensure; whether the runtime works is an arbitrary input.
- Chain.CherryCarriesTheChange: assumes a merge that works path by path, so renames that git detects are not followed.
- Chain.BuildErrorsAreReal: does not say which command failed, since that is git's own message.
- Real git: a three-way merge, the naming of commits and name lookup are arbitrary functions; replaying also assumes that merging a base with itself gives the other side. Objects created during a run do not become visible to name lookups of that run.
- Remote refs: a name is looked up exactly, while `git ls-remote` also matches longer names ending in it; conflicts between a ref and a directory of refs are left out.
- YAML: scalars are strings and numbers, a malformed file is the refused document, and the lock round trip is lossless.
- The text of `git describe` and creating or editing the pull request: external tools.
- Cloning, worktrees and fetching: a fetch either works or fails the command.
- Two concurrent Exec calls with one ID: the check and the registration are separate steps in the code, so the registry's one-process-per-ID is per container and sequential.
- The asynchronous OOM poller: `isOOM` is an arbitrary answer per exit.
- runsc, I/O copying, consoles, mounts, cgroup loading and statistics.
- Command-line argument builders, `tools/notes.py` and the build scripts: formatting and thin wrappers.
