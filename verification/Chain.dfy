/** Commits, deterministic cherry-picks and the stack built from them
    (tools/stack.py:27-30, 204-217, 256-367). */
module Chain {
  import opened Wrappers
  import opened Manifests
  import opened Selection
  import RefNames

  type Tree = map<string, string>

  /** A commit is its content: its name is a function of these fields. */
  datatype Commit = Commit(
    parents: seq<Commit>, tree: Tree,
    author: string, authorDate: string,
    committer: string, committerDate: string,
    message: string)

  const BOT := "neev release bot <release-bot@users.noreply.github.com>"

  /** The local object store: a three-way merge (base, ours, theirs), the naming of commits,
      the reading of names and abbreviated names, and version stamps. */
  datatype Git = Git(
    merge: (Tree, Tree, Tree) -> Option<Tree>,
    name: Commit -> string,
    find: string -> Option<Commit>,
    revParse: string -> Option<string>,
    describe: Commit -> Option<string>)

  /** Everything a build reads: the store, the base tags, the pull request heads as reported
      (None when the query or the fetch fails) and the branches of the fork. */
  datatype World = World(
    git: Git,
    baseOf: string -> Option<Commit>,
    heads: (string, int) -> Option<seq<string>>,
    forkRef: string -> Option<Commit>)

  datatype BuildError =
    | CommandFailed
    | Selecting(pr: int, selectError: SelectError)
    | RebasedMissing(pr: int, replacement: string)
    | DoesNotApply(pr: int, sha: string)

  datatype Picked = Picked(pr: int, upstream: string, applied: string, cherry: string)

  datatype Lock = Lock(
    tag: string, base: string, baseSha: string, branch: string, branchSha: string,
    versionStamp: string, fork: string, picked: seq<Picked>)

  /** How far a build has come: the detached HEAD, the commits recorded, and the error that
      stopped it, if any. */
  datatype Progress = Progress(head: Commit, picked: seq<Picked>, failed: Option<BuildError>)

  predicate IsAncestor(a: Commit, b: Commit) {
    a == b || exists i :: 0 <= i < |b.parents| && IsAncestor(a, b.parents[i])
  }

  /** git cherry-pick: None for a merge commit, a conflict, or a pick that changes nothing. */
  function Transplant(git: Git, head: Commit, c: Commit): Option<Commit> {
    if |c.parents| > 1 then None
    else
      var base := if c.parents == [] then map[] else c.parents[0].tree;
      match git.merge(base, head.tree, c.tree)
      case None => None
      case Some(t) =>
        if t == head.tree then None
        else Some(Commit([head], t, c.author, c.authorDate, BOT, c.authorDate, c.message))
  }

  /** The outcome of one cherry-pick by name: an unknown object fails before git runs. */
  function CherryPicked(git: Git, head: Commit, sha: string, pr: int): Result<Commit, BuildError> {
    match git.find(sha)
    case None => Failure(CommandFailed)
    case Some(c) =>
      match Transplant(git, head, c)
      case None => Failure(DoesNotApply(pr, sha))
      case Some(h) => Success(h)
  }

  /** The commit applied for `upstream`, honouring a substitution. */
  function Substitute(git: Git, entry: Entry, upstream: string, tip: Option<Commit>): Result<string, BuildError> {
    match Replacement(entry, upstream)
    case None => Success(upstream)
    case Some(replacement) =>
      match git.revParse(replacement)
      case None => Failure(RebasedMissing(entry.pr, replacement))
      case Some(sha) =>
        if git.find(sha).Some? && tip.Some? && IsAncestor(git.find(sha).value, tip.value)
        then Success(sha) else Failure(CommandFailed)
  }

  function PickOne(git: Git, entry: Entry, tip: Option<Commit>, p: Progress, sha: string): Progress {
    match Substitute(git, entry, sha, tip)
    case Failure(e) => p.(failed := Some(e))
    case Success(applied) =>
      match CherryPicked(git, p.head, applied, entry.pr)
      case Failure(e) => p.(failed := Some(e))
      case Success(h) => Progress(h, p.picked + [Picked(entry.pr, sha, applied, git.name(h))], p.failed)
  }

  function PickAll(git: Git, entry: Entry, tip: Option<Commit>, p: Progress, shas: seq<string>): Progress
    decreases |shas|
  {
    if p.failed.Some? || shas == [] then p
    else PickAll(git, entry, tip, PickOne(git, entry, tip, p, shas[0]), shas[1..])
  }

  /** What is applied for an entry: its selection and the fetched substitution branch. */
  function Prepare(w: World, entry: Entry): Result<(seq<string>, Option<Commit>), BuildError> {
    match w.heads(entry.source, entry.pr)
    case None => Failure(CommandFailed)
    case Some(actual) =>
      match Select(entry, actual)
      case Failure(e) => Failure(Selecting(entry.pr, e))
      case Success(shas) =>
        match entry.rebased
        case None => Success((shas, None))
        case Some(r) =>
          if w.forkRef(r.ref).None? then Failure(CommandFailed) else Success((shas, w.forkRef(r.ref)))
  }

  function BuildEntry(w: World, entry: Entry, p: Progress): Progress {
    match Prepare(w, entry)
    case Failure(e) => p.(failed := Some(e))
    case Success((shas, tip)) => PickAll(w.git, entry, tip, p, shas)
  }

  function BuildStack(w: World, stack: seq<Entry>, p: Progress): Progress {
    if p.failed.Some? || stack == [] then p
    else BuildStack(w, stack[1..], BuildEntry(w, stack[0], p))
  }

  /** One iteration of each loop, as the folds see it. */
  lemma PickAllUnfold(git: Git, entry: Entry, tip: Option<Commit>, p: Progress, shas: seq<string>, j: nat)
    requires p.failed.None? && j < |shas|
    ensures PickAll(git, entry, tip, p, shas[j..]) ==
            PickAll(git, entry, tip, PickOne(git, entry, tip, p, shas[j]), shas[j + 1..])
  {
    assert shas[j..][1..] == shas[j + 1..];
  }

  lemma BuildStackUnfold(w: World, stack: seq<Entry>, p: Progress, i: nat)
    requires p.failed.None? && i < |stack|
    ensures BuildStack(w, stack[i..], p) == BuildStack(w, stack[i + 1..], BuildEntry(w, stack[i], p))
  {
    assert stack[i..][1..] == stack[i + 1..];
  }

  /** The lock a build produces, or the error that stopped it. */
  function Build(w: World, m: Manifest, fork: string): Result<Lock, BuildError> {
    match w.baseOf(m.base)
    case None => Failure(CommandFailed)
    case Some(base) =>
      var p := BuildStack(w, m.stack, Progress(base, [], None));
      if p.failed.Some? then Failure(p.failed.value)
      else match w.git.describe(p.head)
        case None => Failure(CommandFailed)
        case Some(stamp) =>
          Success(Lock(m.tag, m.base, w.git.name(base), RefNames.Branch(m), w.git.name(p.head), stamp, fork, p.picked))
  }

  /** The throwaway checkout. `picking` is the presence of CHERRY_PICK_HEAD. */
  class Worktree {
    const git: Git
    var head: Commit
    var picking: bool

    constructor (git: Git, head: Commit)
      ensures this.git == git && this.head == head && !picking
    {
      this.git := git;
      this.head := head;
      this.picking := false;
    }

    /** git cherry-pick: moves HEAD, or fails with HEAD where it was. A conflict or an empty pick
        leaves the cherry-pick in progress; a merge commit is refused before one begins. */
    method Attempt(c: Commit) returns (ok: bool)
      requires !picking
      modifies this
      ensures ok <==> Transplant(git, old(head), c).Some?
      ensures head == if ok then Transplant(git, old(head), c).value else old(head)
      ensures picking <==> !ok && |c.parents| <= 1
    {
      if |c.parents| > 1 { return false; }
      picking := true;
      var next := Transplant(git, head, c);
      if next.None? { return false; }
      head, picking := next.value, false;
      return true;
    }

    /** git cherry-pick --abort, which may find nothing to abort. */
    method Abort()
      modifies this`picking
      ensures !picking
    {
      if picking { picking := false; }
    }

    /** Moves HEAD by one commit, or reports the failure with HEAD where it was and no
        cherry-pick left in progress. */
    method CherryPick(sha: string, pr: int) returns (r: Result<string, BuildError>)
      requires !picking
      modifies this
      ensures !picking
      ensures match CherryPicked(git, old(head), sha, pr)
              case Success(h) => head == h && r == Success(git.name(h))
              case Failure(e) => head == old(head) && r == Failure(e)
    {
      if git.find(sha).None? { return Failure(CommandFailed); }
      var ok := Attempt(git.find(sha).value);
      if !ok {
        Abort();
        return Failure(DoesNotApply(pr, sha));
      }
      return Success(git.name(head));
    }

    /** build_stack: on success the lock of `Build`; always HEAD where the fold says. */
    method BuildRelease(w: World, m: Manifest, fork: string) returns (r: Result<Lock, BuildError>)
      requires w.git == git && !picking
      modifies this
      ensures !picking
      ensures r == Build(w, m, fork)
      ensures w.baseOf(m.base).Some? ==>
                head == BuildStack(w, m.stack, Progress(w.baseOf(m.base).value, [], None)).head
      ensures w.baseOf(m.base).None? ==> head == old(head)
    {
      var base := w.baseOf(m.base);
      if base.None? { return Failure(CommandFailed); }
      head := base.value;
      var picked: seq<Picked> := [];
      ghost var whole := BuildStack(w, m.stack, Progress(base.value, [], None));
      var i := 0;
      while i < |m.stack|
        invariant 0 <= i <= |m.stack| && !picking
        invariant BuildStack(w, m.stack[i..], Progress(head, picked, None)) == whole
      {
        var entry := m.stack[i];
        BuildStackUnfold(w, m.stack, Progress(head, picked, None), i);
        var prepared := Prepare(w, entry);
        if prepared.Failure? { return Failure(prepared.error); }
        var (shas, tip) := prepared.value;
        ghost var start := Progress(head, picked, None);
        var j := 0;
        while j < |shas|
          invariant 0 <= j <= |shas| && !picking
          invariant PickAll(git, entry, tip, Progress(head, picked, None), shas[j..])
                    == PickAll(git, entry, tip, start, shas)
        {
          PickAllUnfold(git, entry, tip, Progress(head, picked, None), shas, j);
          var applied := Substitute(git, entry, shas[j], tip);
          if applied.Failure? { return Failure(applied.error); }
          var cherry := CherryPick(applied.value, entry.pr);
          if cherry.Failure? { return Failure(cherry.error); }
          picked := picked + [Picked(entry.pr, shas[j], applied.value, cherry.value)];
          j := j + 1;
        }
        assert BuildEntry(w, entry, start) == Progress(head, picked, None);
        i := i + 1;
      }
      var stamp := git.describe(head);
      if stamp.None? { return Failure(CommandFailed); }
      return Success(Lock(m.tag, m.base, git.name(base.value), RefNames.Branch(m), git.name(head), stamp.value, fork,
                          picked));
    }
  }

  // --- One linear chain -----------------------------------------------------------------

  /** `head` is |picked| single-parent steps above `base`, and step k is picked[k].cherry. */
  predicate Linear(git: Git, base: Commit, head: Commit, picked: seq<Picked>)
    decreases |picked|
  {
    if picked == [] then head == base
    else
      && |head.parents| == 1
      && picked[|picked| - 1].cherry == git.name(head)
      && Linear(git, base, head.parents[0], picked[..|picked| - 1])
  }

  lemma {:induction false} PickAllLinear(git: Git, base: Commit, entry: Entry, tip: Option<Commit>,
                                         p: Progress, shas: seq<string>)
    requires Linear(git, base, p.head, p.picked)
    ensures var q := PickAll(git, entry, tip, p, shas); Linear(git, base, q.head, q.picked)
    decreases |shas|
  {
    if p.failed.None? && shas != [] {
      var q := PickOne(git, entry, tip, p, shas[0]);
      if q.failed.None? {
        assert q.picked[..|q.picked| - 1] == p.picked;
      }
      PickAllLinear(git, base, entry, tip, q, shas[1..]);
    }
  }

  lemma {:induction false} BuildStackLinear(w: World, base: Commit, stack: seq<Entry>, p: Progress)
    requires Linear(w.git, base, p.head, p.picked)
    ensures var q := BuildStack(w, stack, p); Linear(w.git, base, q.head, q.picked)
    decreases |stack|
  {
    if p.failed.None? && stack != [] {
      var prepared := Prepare(w, stack[0]);
      if prepared.Success? {
        PickAllLinear(w.git, base, stack[0], prepared.value.1, p, prepared.value.0);
      }
      BuildStackLinear(w, base, stack[1..], BuildEntry(w, stack[0], p));
    }
  }

  /** The commit `n` first-parent steps below `c`. */
  function Below(c: Commit, n: nat): Option<Commit> {
    if n == 0 then Some(c)
    else if c.parents == [] then None
    else Below(c.parents[0], n - 1)
  }

  /** Step k above the base is the recorded cherry k. */
  predicate StepIs(git: Git, head: Commit, picked: seq<Picked>, k: nat)
    requires k < |picked|
  {
    var c := Below(head, |picked| - 1 - k);
    c.Some? && git.name(c.value) == picked[k].cherry
  }

  lemma {:induction false} LinearSteps(git: Git, base: Commit, head: Commit, picked: seq<Picked>, k: nat)
    requires Linear(git, base, head, picked) && k <= |picked|
    ensures Below(head, |picked|) == Some(base)
    ensures k < |picked| ==> StepIs(git, head, picked, k)
    decreases |picked|
  {
    if picked != [] {
      var n := |picked| - 1;
      LinearSteps(git, base, head.parents[0], picked[..n], if k < n then k else n);
    }
  }

  /** On success HEAD is exactly |picked| first-parent steps above the base, step k is the
      recorded cherry k, and the branch is the last of them. */
  lemma BuildIsOneChain(w: World, m: Manifest, fork: string) returns (head: Commit)
    requires Build(w, m, fork).Success?
    ensures head == BuildStack(w, m.stack, Progress(w.baseOf(m.base).value, [], None)).head
    ensures w.git.describe(head) == Some(Build(w, m, fork).value.versionStamp)
    ensures var lock := Build(w, m, fork).value;
            && lock.branchSha == w.git.name(head)
            && Below(head, |lock.picked|) == w.baseOf(m.base)
            && forall k: nat | k < |lock.picked| :: StepIs(w.git, head, lock.picked, k)
  {
    var base := w.baseOf(m.base).value;
    var p := BuildStack(w, m.stack, Progress(base, [], None));
    head := p.head;
    BuildStackLinear(w, base, m.stack, Progress(base, [], None));
    LinearSteps(w.git, base, p.head, p.picked, 0);
    forall k: nat | k < |p.picked| ensures StepIs(w.git, p.head, p.picked, k) {
      LinearSteps(w.git, base, p.head, p.picked, k);
    }
  }

  /** What a lock says about its inputs: the manifest's tag and base, the commit of the base tag,
      the branch of the tag, and the fork. */
  lemma LockNamesItsInputs(w: World, m: Manifest, fork: string)
    requires Build(w, m, fork).Success?
    ensures var lock := Build(w, m, fork).value;
            && lock.tag == m.tag && lock.base == m.base && lock.fork == fork
            && lock.branch == RefNames.Branch(m)
            && w.baseOf(m.base).Some? && lock.baseSha == w.git.name(w.baseOf(m.base).value)
  {
  }

  // --- The cherries are a function of the base and the applied commits -----------------

  /** Cherry-pick a list of names onto `head`; None as soon as one fails. */
  function Replay(git: Git, head: Commit, shas: seq<string>): Option<Commit>
    decreases |shas|
  {
    if shas == [] then Some(head)
    else
      match CherryPicked(git, head, shas[0], 0)
      case Failure(_) => None
      case Success(h) => Replay(git, h, shas[1..])
  }

  function Applied(picked: seq<Picked>): seq<string> {
    seq(|picked|, i requires 0 <= i < |picked| => picked[i].applied)
  }

  function Cherries(picked: seq<Picked>): seq<string> {
    seq(|picked|, i requires 0 <= i < |picked| => picked[i].cherry)
  }

  /** Replaying the first k applied commits ends at cherry k: nothing else enters. */
  predicate Reproduces(git: Git, base: Commit, picked: seq<Picked>) {
    forall k: nat | k < |picked| :: ReproducesAt(git, base, picked, k)
  }

  predicate ReproducesAt(git: Git, base: Commit, picked: seq<Picked>, k: nat)
    requires k < |picked|
  {
    var c := Replay(git, base, Applied(picked)[..k + 1]);
    c.Some? && git.name(c.value) == picked[k].cherry
  }

  lemma {:induction false} ReplayAppend(git: Git, head: Commit, shas: seq<string>, sha: string)
    requires Replay(git, head, shas).Some?
    ensures Replay(git, head, shas + [sha]) ==
            match CherryPicked(git, Replay(git, head, shas).value, sha, 0)
            case Failure(_) => None
            case Success(h) => Some(h)
    decreases |shas|
  {
    if shas == [] {
      assert [sha][1..] == [];
    } else {
      assert (shas + [sha])[1..] == shas[1..] + [sha];
      ReplayAppend(git, CherryPicked(git, head, shas[0], 0).value, shas[1..], sha);
    }
  }

  lemma {:induction false} PickAllReproduces(git: Git, base: Commit, entry: Entry, tip: Option<Commit>,
                                             p: Progress, shas: seq<string>)
    requires Replay(git, base, Applied(p.picked)) == Some(p.head) && Reproduces(git, base, p.picked)
    ensures var q := PickAll(git, entry, tip, p, shas);
            Replay(git, base, Applied(q.picked)) == Some(q.head) && Reproduces(git, base, q.picked)
    decreases |shas|
  {
    if p.failed.None? && shas != [] {
      var q := PickOne(git, entry, tip, p, shas[0]);
      if q.failed.None? {
        var sha := q.picked[|p.picked|].applied;
        assert Applied(q.picked) == Applied(p.picked) + [sha];
        ReplayAppend(git, base, Applied(p.picked), sha);
        assert CherryPicked(git, p.head, sha, 0) == Success(q.head);
        forall k: nat | k < |q.picked| ensures ReproducesAt(git, base, q.picked, k) {
          if k < |p.picked| {
            assert ReproducesAt(git, base, p.picked, k);
            assert Applied(q.picked)[..k + 1] == Applied(p.picked)[..k + 1];
          } else {
            assert Applied(q.picked)[..k + 1] == Applied(q.picked);
          }
        }
      }
      PickAllReproduces(git, base, entry, tip, q, shas[1..]);
    }
  }

  lemma {:induction false} BuildStackReproduces(w: World, base: Commit, stack: seq<Entry>, p: Progress)
    requires Replay(w.git, base, Applied(p.picked)) == Some(p.head) && Reproduces(w.git, base, p.picked)
    ensures var q := BuildStack(w, stack, p);
            Replay(w.git, base, Applied(q.picked)) == Some(q.head) && Reproduces(w.git, base, q.picked)
    decreases |stack|
  {
    if p.failed.None? && stack != [] {
      var prepared := Prepare(w, stack[0]);
      if prepared.Success? {
        PickAllReproduces(w.git, base, stack[0], prepared.value.1, p, prepared.value.0);
      }
      BuildStackReproduces(w, base, stack[1..], BuildEntry(w, stack[0], p));
    }
  }

  lemma BuildReproduces(w: World, m: Manifest, fork: string)
    requires Build(w, m, fork).Success?
    ensures var lock := Build(w, m, fork).value;
            var base := w.baseOf(m.base).value;
            && Reproduces(w.git, base, lock.picked)
            && Replay(w.git, base, Applied(lock.picked)).Some?
            && w.git.name(Replay(w.git, base, Applied(lock.picked)).value) == lock.branchSha
  {
    var base := w.baseOf(m.base).value;
    BuildStackReproduces(w, base, m.stack, Progress(base, [], None));
  }

  /** Two releases on the same base whose applied commits agree up to k carry the same
      cherries up to k, however different their manifests, heads and forks are. */
  lemma CommonPrefixSharesCherries(w: World, m: Manifest, fork: string, w': World, m': Manifest, fork': string, k: nat)
    requires w.git == w'.git && w.baseOf(m.base) == w'.baseOf(m'.base)
    requires Build(w, m, fork).Success? && Build(w', m', fork').Success?
    requires var a, b := Build(w, m, fork).value.picked, Build(w', m', fork').value.picked;
             k <= |a| && k <= |b| && Applied(a)[..k] == Applied(b)[..k]
    ensures var a, b := Build(w, m, fork).value.picked, Build(w', m', fork').value.picked;
            Cherries(a)[..k] == Cherries(b)[..k]
  {
    BuildReproduces(w, m, fork);
    BuildReproduces(w', m', fork');
    var a, b := Build(w, m, fork).value.picked, Build(w', m', fork').value.picked;
    forall i: nat | i < k ensures Cherries(a)[..k][i] == Cherries(b)[..k][i] {
      assert ReproducesAt(w.git, w.baseOf(m.base).value, a, i);
      assert ReproducesAt(w.git, w.baseOf(m.base).value, b, i);
      assert Applied(a)[..i + 1] == Applied(a)[..k][..i + 1];
      assert Applied(b)[..i + 1] == Applied(b)[..k][..i + 1];
    }
  }

  // --- What a cherry contains -----------------------------------------------------------

  function Content(t: Tree, path: string): Option<string> {
    if path in t then Some(t[path]) else None
  }

  /** The tree a commit changes. */
  function Before(c: Commit): Tree {
    if c.parents == [] then map[] else c.parents[0].tree
  }

  /** A three-way merge, path by path: a side that has at a path what the base has there yields
      to the other side. */
  ghost predicate Pathwise(git: Git) {
    forall base, ours, theirs, path | git.merge(base, ours, theirs).Some? ::
      MergedAt(base, ours, theirs, git.merge(base, ours, theirs).value, path)
  }

  predicate MergedAt(base: Tree, ours: Tree, theirs: Tree, merged: Tree, path: string) {
    && (Content(theirs, path) == Content(base, path) ==> Content(merged, path) == Content(ours, path))
    && (Content(ours, path) == Content(base, path) ==> Content(merged, path) == Content(theirs, path))
  }

  /** A cherry carries the change of its commit and nothing else, onto whatever HEAD: a path the
      commit does not change is as on HEAD, a path HEAD has as before the commit is as in the
      commit, and author, author date and message are the commit's. */
  lemma CherryCarriesTheChange(git: Git, head: Commit, c: Commit, path: string)
    requires Pathwise(git) && Transplant(git, head, c).Some?
    ensures var cherry := Transplant(git, head, c).value;
            && (Content(c.tree, path) == Content(Before(c), path) ==>
                  Content(cherry.tree, path) == Content(head.tree, path))
            && (Content(head.tree, path) == Content(Before(c), path) ==>
                  Content(cherry.tree, path) == Content(c.tree, path))
            && cherry.author == c.author && cherry.authorDate == c.authorDate && cherry.message == c.message
  {
    assert MergedAt(Before(c), head.tree, c.tree, git.merge(Before(c), head.tree, c.tree).value, path);
  }

  /** A commit that changes nothing cannot be picked. */
  lemma EmptyPickFails(git: Git, head: Commit, c: Commit)
    requires Pathwise(git) && forall path :: Content(c.tree, path) == Content(Before(c), path)
    ensures Transplant(git, head, c) == None
  {
    var merged := git.merge(Before(c), head.tree, c.tree);
    if merged.Some? {
      forall path ensures Content(merged.value, path) == Content(head.tree, path) {
        assert MergedAt(Before(c), head.tree, c.tree, merged.value, path);
      }
      SameContents(merged.value, head.tree);
    }
  }

  lemma SameContents(s: Tree, t: Tree)
    requires forall path :: Content(s, path) == Content(t, path)
    ensures s == t
  {
    forall path ensures (path in s <==> path in t) && (path in s ==> s[path] == t[path]) {
      assert Content(s, path) == Content(t, path);
    }
  }

  /** The applied commits are known and none of them changes the path. */
  predicate NoneChanges(git: Git, shas: seq<string>, path: string) {
    forall i | 0 <= i < |shas| :: Leaves(git, shas[i], path)
  }

  predicate Leaves(git: Git, sha: string, path: string) {
    git.find(sha).Some? ==> Content(git.find(sha).value.tree, path) == Content(Before(git.find(sha).value), path)
  }

  lemma {:induction false} ReplayLeavesPath(git: Git, head: Commit, shas: seq<string>, path: string)
    requires Pathwise(git) && Replay(git, head, shas).Some? && NoneChanges(git, shas, path)
    ensures Content(Replay(git, head, shas).value.tree, path) == Content(head.tree, path)
    decreases |shas|
  {
    if shas != [] {
      assert Leaves(git, shas[0], path);
      CherryCarriesTheChange(git, head, git.find(shas[0]).value, path);
      forall i | 0 <= i < |shas| - 1 ensures Leaves(git, shas[1..][i], path) { assert Leaves(git, shas[i + 1], path); }
      ReplayLeavesPath(git, CherryPicked(git, head, shas[0], 0).value, shas[1..], path);
    }
  }

  /** The stack touches nothing else: what no applied commit changes is on the branch as it is on
      the base tag. */
  lemma StackLeavesOtherPaths(w: World, m: Manifest, fork: string, path: string) returns (head: Commit)
    requires Pathwise(w.git) && Build(w, m, fork).Success?
    requires NoneChanges(w.git, Applied(Build(w, m, fork).value.picked), path)
    ensures Build(w, m, fork).value.branchSha == w.git.name(head)
    ensures Content(head.tree, path) == Content(w.baseOf(m.base).value.tree, path)
  {
    BuildReproduces(w, m, fork);
    var base := w.baseOf(m.base).value;
    var applied := Applied(Build(w, m, fork).value.picked);
    head := Replay(w.git, base, applied).value;
    ReplayLeavesPath(w.git, base, applied, path);
  }

  // --- Which builds succeed -------------------------------------------------------------

  /** The branches the stack's substitutions live on can be fetched. */
  predicate BranchesFetched(w: World, stack: seq<Entry>) {
    forall e | e in stack && e.rebased.Some? :: w.forkRef(e.rebased.value.ref).Some?
  }

  lemma {:induction false} ReplayConcat(git: Git, head: Commit, a: seq<string>, b: seq<string>)
    ensures Replay(git, head, a + b) ==
            if Replay(git, head, a).None? then None else Replay(git, Replay(git, head, a).value, b)
    decreases |a|
  {
    if a == [] {
      assert a + b == b;
    } else {
      assert (a + b)[1..] == a[1..] + b;
      if CherryPicked(git, head, a[0], 0).Success? {
        ReplayConcat(git, CherryPicked(git, head, a[0], 0).value, a[1..], b);
      }
    }
  }

  lemma CherryIgnoresNumber(git: Git, head: Commit, sha: string, pr: int)
    ensures CherryPicked(git, head, sha, pr).Success? <==> CherryPicked(git, head, sha, 0).Success?
    ensures CherryPicked(git, head, sha, pr).Success? ==>
              CherryPicked(git, head, sha, pr) == CherryPicked(git, head, sha, 0)
  {
  }

  /** Picking the selected commits of an entry succeeds when all are resolved and their replay
      does, and ends where the replay ends. */
  lemma {:induction false} PickAllSucceeds(git: Git, entry: Entry, tip: Option<Commit>, p: Progress,
                                           shas: seq<string>, segment: seq<Picked>)
    requires p.failed.None? && |segment| == |shas|
    requires forall k | 0 <= k < |shas| :: Substituted(git, entry, tip, shas[k], segment[k])
    requires Replay(git, p.head, Applied(segment)).Some?
    ensures var q := PickAll(git, entry, tip, p, shas);
            q.failed.None? && Some(q.head) == Replay(git, p.head, Applied(segment))
    decreases |shas|
  {
    if shas != [] {
      assert Substituted(git, entry, tip, shas[0], segment[0]);
      assert Applied(segment)[1..] == Applied(segment[1..]);
      CherryIgnoresNumber(git, p.head, segment[0].applied, entry.pr);
      var q := PickOne(git, entry, tip, p, shas[0]);
      forall k | 0 <= k < |shas| - 1 ensures Substituted(git, entry, tip, shas[1..][k], segment[1..][k]) {
        assert Substituted(git, entry, tip, shas[k + 1], segment[k + 1]);
      }
      PickAllSucceeds(git, entry, tip, q, shas[1..], segment[1..]);
    }
  }

  lemma EntrySucceeds(w: World, entry: Entry, p: Progress, segment: seq<Picked>)
    requires p.failed.None? && Segment(w, entry, segment) && BranchesFetched(w, [entry])
    requires Replay(w.git, p.head, Applied(segment)).Some?
    ensures var q := BuildEntry(w, entry, p);
            q.failed.None? && Some(q.head) == Replay(w.git, p.head, Applied(segment))
  {
    assert entry in [entry];
    var (shas, tip) := Prepare(w, entry).value;
    forall k | 0 <= k < |shas| ensures Substituted(w.git, entry, tip, shas[k], segment[k]) {
      assert Recorded(w, entry, shas[k], segment[k]);
    }
    PickAllSucceeds(w.git, entry, tip, p, shas, segment);
  }

  lemma AppliedConcat(a: seq<Picked>, b: seq<Picked>)
    ensures Applied(a + b) == Applied(a) + Applied(b)
  {
  }

  lemma {:induction false} StackSucceeds(w: World, stack: seq<Entry>, p: Progress, segments: seq<seq<Picked>>)
    requires p.failed.None? && Segments(w, stack, segments) && BranchesFetched(w, stack)
    requires Replay(w.git, p.head, Applied(Flatten(segments))).Some?
    ensures var q := BuildStack(w, stack, p);
            q.failed.None? && Some(q.head) == Replay(w.git, p.head, Applied(Flatten(segments)))
    decreases |stack|
  {
    if stack != [] {
      AppliedConcat(segments[0], Flatten(segments[1..]));
      ReplayConcat(w.git, p.head, Applied(segments[0]), Applied(Flatten(segments[1..])));
      assert stack[0] in stack && forall e | e in stack[1..] :: e in stack;
      EntrySucceeds(w, stack[0], p, segments[0]);
      StackSucceeds(w, stack[1..], BuildEntry(w, stack[0], p), segments[1..]);
    }
  }

  lemma EntryFetched(w: World, entry: Entry, p: Progress)
    requires p.failed.None? && BuildEntry(w, entry, p).failed.None?
    ensures entry.rebased.Some? ==> w.forkRef(entry.rebased.value.ref).Some?
  {
  }

  lemma FetchedCons(w: World, stack: seq<Entry>)
    requires stack != [] && BranchesFetched(w, stack[1..])
    requires stack[0].rebased.Some? ==> w.forkRef(stack[0].rebased.value.ref).Some?
    ensures BranchesFetched(w, stack)
  {
    assert stack == [stack[0]] + stack[1..];
  }

  lemma {:induction false} BuildFetched(w: World, stack: seq<Entry>, p: Progress)
    requires BuildStack(w, stack, p).failed.None?
    ensures BranchesFetched(w, stack)
    decreases |stack|
  {
    if stack != [] {
      BuildStackStep(w, stack, p);
      EntryFetched(w, stack[0], p);
      BuildFetched(w, stack[1..], BuildEntry(w, stack[0], p));
      FetchedCons(w, stack);
    }
  }

  /** The commits a stack applies, were they all resolved before any is picked. */
  ghost predicate Applicable(w: World, base: Commit, stack: seq<Entry>, segments: seq<seq<Picked>>) {
    && Segments(w, stack, segments)
    && Replay(w.git, base, Applied(Flatten(segments))).Some?
    && w.git.describe(Replay(w.git, base, Applied(Flatten(segments))).value).Some?
  }

  /** A build succeeds if and only if the base is known, the branches of substitutes can be
      fetched, every entry's selection and substitutes resolve, and cherry-picking all of them in
      order onto the base succeeds and can be described. That the code interleaves resolving and
      picking makes no difference. */
  lemma BuildSucceedsIff(w: World, m: Manifest, fork: string)
    ensures Build(w, m, fork).Success? <==>
            && w.baseOf(m.base).Some? && BranchesFetched(w, m.stack)
            && exists segments :: Applicable(w, w.baseOf(m.base).value, m.stack, segments)
  {
    if Build(w, m, fork).Success? {
      var base := w.baseOf(m.base).value;
      BuildFetched(w, m.stack, Progress(base, [], None));
      var segments := LockIsSegments(w, m, fork);
      BuildStackReproduces(w, base, m.stack, Progress(base, [], None));
      assert Applicable(w, base, m.stack, segments);
    }
    if w.baseOf(m.base).Some? && BranchesFetched(w, m.stack) {
      var base := w.baseOf(m.base).value;
      if segments :| Applicable(w, base, m.stack, segments) {
        StackSucceeds(w, m.stack, Progress(base, [], None), segments);
      }
    }
  }

  // --- What a failed build reports ------------------------------------------------------

  /** The error is about this entry: its number, and what is wrong with it. */
  ghost predicate FaultOf(w: World, entry: Entry, e: BuildError) {
    match e
    case CommandFailed => true
    case Selecting(pr, f) =>
      && pr == entry.pr && w.heads(entry.source, entry.pr).Some?
      && Select(entry, w.heads(entry.source, entry.pr).value) == Failure(f)
    case RebasedMissing(pr, name) =>
      && pr == entry.pr && entry.rebased.Some? && w.git.revParse(name).None?
      && exists kv :: kv in entry.rebased.value.subst && kv.1 == name
    case DoesNotApply(pr, sha) =>
      && pr == entry.pr && w.git.find(sha).Some?
      && exists head :: Transplant(w.git, head, w.git.find(sha).value).None?
  }

  lemma PickOneFault(w: World, entry: Entry, tip: Option<Commit>, p: Progress, sha: string)
    requires p.failed.None? && PickOne(w.git, entry, tip, p, sha).failed.Some?
    ensures FaultOf(w, entry, PickOne(w.git, entry, tip, p, sha).failed.value)
  {
    if entry.rebased.Some? { FirstMatchIsSomeMatch(entry.rebased.value.subst, sha); }
    var applied := Substitute(w.git, entry, sha, tip);
    if applied.Success? && w.git.find(applied.value).Some? {
      assert Transplant(w.git, p.head, w.git.find(applied.value).value).None?;
    }
  }

  lemma {:induction false} PickAllFault(w: World, entry: Entry, tip: Option<Commit>, p: Progress, shas: seq<string>)
    requires p.failed.None? && PickAll(w.git, entry, tip, p, shas).failed.Some?
    ensures FaultOf(w, entry, PickAll(w.git, entry, tip, p, shas).failed.value)
    decreases |shas|
  {
    var q := PickOne(w.git, entry, tip, p, shas[0]);
    if q.failed.Some? {
      PickOneFault(w, entry, tip, p, shas[0]);
    } else {
      PickAllFault(w, entry, tip, q, shas[1..]);
    }
  }

  lemma {:induction false} BuildStackFault(w: World, stack: seq<Entry>, p: Progress)
    requires p.failed.None? && BuildStack(w, stack, p).failed.Some?
    ensures exists entry :: entry in stack && FaultOf(w, entry, BuildStack(w, stack, p).failed.value)
    decreases |stack|
  {
    var q := BuildEntry(w, stack[0], p);
    if q.failed.Some? {
      var prepared := Prepare(w, stack[0]);
      if prepared.Success? { PickAllFault(w, stack[0], prepared.value.1, p, prepared.value.0); }
      assert stack[0] in stack && FaultOf(w, stack[0], q.failed.value);
    } else {
      BuildStackFault(w, stack[1..], q);
    }
  }

  /** A failed build blames an entry rightly: a selection that is refused, a substitute that is not
      known, a commit that does not apply; anything else is a failed command. */
  lemma BuildErrorsAreReal(w: World, m: Manifest, fork: string)
    requires Build(w, m, fork).Failure? && !Build(w, m, fork).error.CommandFailed?
    ensures exists entry :: entry in m.stack && FaultOf(w, entry, Build(w, m, fork).error)
  {
    BuildStackFault(w, m.stack, Progress(w.baseOf(m.base).value, [], None));
  }

  // --- Ancestors ------------------------------------------------------------------------

  /** Each commit of the path is a parent of the one before. */
  predicate Descends(path: seq<Commit>) {
    forall i | 0 <= i < |path| - 1 :: ParentNext(path, i)
  }

  predicate ParentNext(path: seq<Commit>, i: nat)
    requires i < |path| - 1
  {
    path[i + 1] in path[i].parents
  }

  predicate LeadsTo(path: seq<Commit>, b: Commit, a: Commit) {
    path != [] && path[0] == b && path[|path| - 1] == a && Descends(path)
  }

  lemma {:induction false} PathOf(a: Commit, b: Commit) returns (path: seq<Commit>)
    requires IsAncestor(a, b)
    ensures LeadsTo(path, b, a)
    decreases b
  {
    if a == b {
      path := [b];
    } else {
      var i :| 0 <= i < |b.parents| && IsAncestor(a, b.parents[i]);
      var rest := PathOf(a, b.parents[i]);
      path := [b] + rest;
      forall k | 0 <= k < |path| - 1 ensures ParentNext(path, k) {
        if k > 0 { assert ParentNext(rest, k - 1); }
      }
    }
  }

  lemma {:induction false} PathReaches(path: seq<Commit>, b: Commit, a: Commit)
    requires LeadsTo(path, b, a)
    ensures IsAncestor(a, b)
    decreases |path|
  {
    if |path| > 1 {
      var rest := path[1..];
      forall k | 0 <= k < |rest| - 1 ensures ParentNext(rest, k) { assert ParentNext(path, k + 1); }
      PathReaches(rest, path[1], a);
      assert ParentNext(path, 0);
      var i :| 0 <= i < |b.parents| && b.parents[i] == path[1];
    }
  }

  /** merge-base --is-ancestor: a path over any parents leads from `b` to `a`. */
  lemma AncestorIffPath(a: Commit, b: Commit)
    ensures IsAncestor(a, b) <==> exists path :: LeadsTo(path, b, a)
  {
    if IsAncestor(a, b) { var path := PathOf(a, b); }
    if path :| LeadsTo(path, b, a) { PathReaches(path, b, a); }
  }

  // --- Cherry-picking canonicalises -----------------------------------------------------

  /** What a content-addressed store and a three-way merge guarantee: a commit is found
      under its name, and merging onto the merge base itself yields the other side. */
  ghost predicate Lawful(git: Git) {
    && (forall c: Commit :: git.find(git.name(c)) == Some(c))
    && (forall b: Tree, t: Tree :: git.merge(b, b, t) == Some(t))
  }

  /** A commit this tool made: the committer and its date are functions of the rest. */
  predicate Canonical(c: Commit) {
    |c.parents| == 1 && c.committer == BOT && c.committerDate == c.authorDate && c.tree != c.parents[0].tree
  }

  lemma TransplantIsCanonical(git: Git, head: Commit, c: Commit)
    ensures Transplant(git, head, c).Some? ==>
              Canonical(Transplant(git, head, c).value) && Transplant(git, head, c).value.parents == [head]
  {
  }

  /** Picking a canonical commit onto its own parent reproduces that very commit; and only
      a canonical commit is reproduced. */
  lemma CanonicalIffFixpoint(git: Git, c: Commit)
    requires Lawful(git) && |c.parents| == 1
    ensures Transplant(git, c.parents[0], c) == Some(c) <==> Canonical(c)
  {
    assert git.merge(c.parents[0].tree, c.parents[0].tree, c.tree) == Some(c.tree);
    assert c.parents == [c.parents[0]];
  }

  /** Onto its own parent every commit that changes something can be picked, and no other. */
  lemma OwnParentPick(git: Git, c: Commit)
    requires Lawful(git) && |c.parents| == 1
    ensures Transplant(git, c.parents[0], c).Some? <==> c.tree != c.parents[0].tree
    ensures c.tree != c.parents[0].tree ==> Transplant(git, c.parents[0], c).value.tree == c.tree
  {
    assert git.merge(c.parents[0].tree, c.parents[0].tree, c.tree) == Some(c.tree);
  }

  /** The chain from `base` to `head` consists of canonical commits named by `picked`. */
  predicate CanonicalChain(git: Git, base: Commit, head: Commit, picked: seq<Picked>)
    decreases |picked|
  {
    if picked == [] then head == base
    else
      && Canonical(head)
      && picked[|picked| - 1].cherry == git.name(head)
      && CanonicalChain(git, base, head.parents[0], picked[..|picked| - 1])
  }

  lemma PickOneCanonical(git: Git, base: Commit, entry: Entry, tip: Option<Commit>, p: Progress, sha: string)
    requires CanonicalChain(git, base, p.head, p.picked)
    ensures var q := PickOne(git, entry, tip, p, sha); CanonicalChain(git, base, q.head, q.picked)
  {
    var q := PickOne(git, entry, tip, p, sha);
    if q.picked != p.picked {
      assert q.picked[..|q.picked| - 1] == p.picked;
    }
  }

  lemma {:induction false} PickAllCanonical(git: Git, base: Commit, entry: Entry, tip: Option<Commit>,
                                            p: Progress, shas: seq<string>)
    requires CanonicalChain(git, base, p.head, p.picked)
    ensures var q := PickAll(git, entry, tip, p, shas); CanonicalChain(git, base, q.head, q.picked)
    decreases |shas|
  {
    if p.failed.None? && shas != [] {
      PickOneCanonical(git, base, entry, tip, p, shas[0]);
      PickAllCanonical(git, base, entry, tip, PickOne(git, entry, tip, p, shas[0]), shas[1..]);
    }
  }

  lemma {:induction false} BuildStackCanonical(w: World, base: Commit, stack: seq<Entry>, p: Progress)
    requires CanonicalChain(w.git, base, p.head, p.picked)
    ensures var q := BuildStack(w, stack, p); CanonicalChain(w.git, base, q.head, q.picked)
    decreases |stack|
  {
    if p.failed.None? && stack != [] {
      var prepared := Prepare(w, stack[0]);
      if prepared.Success? {
        PickAllCanonical(w.git, base, stack[0], prepared.value.1, p, prepared.value.0);
      }
      BuildStackCanonical(w, base, stack[1..], BuildEntry(w, stack[0], p));
    }
  }

  lemma {:induction false} CanonicalChainReplays(git: Git, base: Commit, head: Commit, picked: seq<Picked>)
    requires Lawful(git) && CanonicalChain(git, base, head, picked)
    ensures Replay(git, base, Cherries(picked)) == Some(head)
    decreases |picked|
  {
    if picked != [] {
      var n := |picked| - 1;
      CanonicalChainReplays(git, base, head.parents[0], picked[..n]);
      assert Cherries(picked) == Cherries(picked[..n]) + [picked[n].cherry];
      ReplayAppend(git, base, Cherries(picked[..n]), picked[n].cherry);
      CanonicalIffFixpoint(git, head);
    }
  }

  /** Replaying a build's own cherries on its base gives back the identical branch. */
  lemma ReplayingCherriesIsIdentity(w: World, m: Manifest, fork: string)
    requires Lawful(w.git)
    requires Build(w, m, fork).Success?
    ensures var lock := Build(w, m, fork).value;
            var base := w.baseOf(m.base).value;
            && Replay(w.git, base, Cherries(lock.picked)).Some?
            && w.git.name(Replay(w.git, base, Cherries(lock.picked)).value) == lock.branchSha
  {
    var base := w.baseOf(m.base).value;
    var p := BuildStack(w, m.stack, Progress(base, [], None));
    BuildStackCanonical(w, base, m.stack, Progress(base, [], None));
    CanonicalChainReplays(w.git, base, p.head, p.picked);
  }

  /** And it gives back the identical commit after every step. */
  lemma ReplayingCherriesStepwise(w: World, m: Manifest, fork: string, k: nat)
    requires Lawful(w.git)
    requires Build(w, m, fork).Success? && k < |Build(w, m, fork).value.picked|
    ensures var lock := Build(w, m, fork).value;
            var c := Replay(w.git, w.baseOf(m.base).value, Cherries(lock.picked)[..k + 1]);
            c.Some? && w.git.name(c.value) == lock.picked[k].cherry
  {
    var base := w.baseOf(m.base).value;
    var p := BuildStack(w, m.stack, Progress(base, [], None));
    BuildStackCanonical(w, base, m.stack, Progress(base, [], None));
    CanonicalChainStep(w.git, base, p.head, p.picked, k);
  }

  lemma CanonicalChainStep(git: Git, base: Commit, head: Commit, picked: seq<Picked>, k: nat)
    requires Lawful(git) && CanonicalChain(git, base, head, picked) && k < |picked|
    ensures var c := Replay(git, base, Cherries(picked)[..k + 1]);
            c.Some? && git.name(c.value) == picked[k].cherry
  {
    CanonicalPrefix(git, base, head, picked, k + 1);
    CanonicalChainReplays(git, base, Below(head, |picked| - (k + 1)).value, picked[..k + 1]);
    assert Cherries(picked[..k + 1]) == Cherries(picked)[..k + 1];
  }

  lemma {:induction false} CanonicalPrefix(git: Git, base: Commit, head: Commit, picked: seq<Picked>, k: nat)
    requires CanonicalChain(git, base, head, picked) && k <= |picked|
    ensures Below(head, |picked| - k).Some?
    ensures CanonicalChain(git, base, Below(head, |picked| - k).value, picked[..k])
    decreases |picked|
  {
    if k == |picked| {
      assert picked[..k] == picked;
    } else {
      var n := |picked| - 1;
      CanonicalPrefix(git, base, head.parents[0], picked[..n], k);
      assert picked[..n][..k] == picked[..k];
    }
  }

  // --- What a build depends on ----------------------------------------------------------

  /** Entries that list the same prefixes and the same substitutions, in any order. */
  ghost predicate SameListing(e: Entry, f: Entry) {
    && e.pr == f.pr && e.source == f.source
    && Elements(e.pick) == Elements(f.pick) && Elements(e.skip) == Elements(f.skip)
    && (e.rebased.Some? <==> f.rebased.Some?)
    && (e.rebased.Some? ==>
          && e.rebased.value.ref == f.rebased.value.ref
          && SubstUnique(e.rebased.value.subst) && SubstUnique(f.rebased.value.subst)
          && Elements(e.rebased.value.subst) == Elements(f.rebased.value.subst))
  }

  lemma {:induction false} PickAllSameReplacement(git: Git, e: Entry, f: Entry, tip: Option<Commit>,
                                                  p: Progress, shas: seq<string>)
    requires e.pr == f.pr
    requires forall sha | sha in shas :: Replacement(e, sha) == Replacement(f, sha)
    ensures PickAll(git, e, tip, p, shas) == PickAll(git, f, tip, p, shas)
    decreases |shas|
  {
    if p.failed.None? && shas != [] {
      assert shas[0] in shas;
      PickAllSameReplacement(git, e, f, tip, PickOne(git, e, tip, p, shas[0]), shas[1..]);
    }
  }

  lemma PrepareIgnoresListing(w: World, e: Entry, f: Entry)
    requires ValidEntry(e) && ValidEntry(f) && SameListing(e, f)
    requires Prepare(w, e).Success?
    ensures Prepare(w, f) == Prepare(w, e)
  {
    SelectionIgnoresListing(e, f, w.heads(e.source, e.pr).value);
  }

  lemma ReplacementIgnoresListing(e: Entry, f: Entry, actual: seq<string>, sha: string)
    requires ValidEntry(e) && ValidEntry(f) && SameListing(e, f)
    requires Select(e, actual).Success? && sha in Select(e, actual).value
    ensures Replacement(e, sha) == Replacement(f, sha)
  {
    if e.rebased.Some? { SubstitutionIgnoresMapOrder(e, f, actual, sha); }
  }

  lemma BuildEntryIgnoresListing(w: World, e: Entry, f: Entry, p: Progress)
    requires ValidEntry(e) && ValidEntry(f) && SameListing(e, f)
    requires Prepare(w, e).Success?
    ensures BuildEntry(w, f, p) == BuildEntry(w, e, p)
  {
    PrepareIgnoresListing(w, e, f);
    var (shas, tip) := Prepare(w, e).value;
    forall sha | sha in shas ensures Replacement(e, sha) == Replacement(f, sha) {
      ReplacementIgnoresListing(e, f, w.heads(e.source, e.pr).value, sha);
    }
    PickAllSameReplacement(w.git, e, f, tip, p, shas);
  }

  lemma {:induction false} BuildStackIgnoresListing(w: World, es: seq<Entry>, fs: seq<Entry>, p: Progress)
    requires |es| == |fs|
    requires forall i | 0 <= i < |es| :: ValidEntry(es[i]) && ValidEntry(fs[i]) && SameListing(es[i], fs[i])
    requires BuildStack(w, es, p).failed.None?
    ensures BuildStack(w, fs, p) == BuildStack(w, es, p)
    decreases |es|
  {
    if p.failed.None? && es != [] {
      var q := BuildEntry(w, es[0], p);
      assert Prepare(w, es[0]).Success?;
      BuildEntryIgnoresListing(w, es[0], fs[0], p);
      BuildStackIgnoresListing(w, es[1..], fs[1..], q);
    }
  }

  /** The lock does not depend on the order in which pick, skip or the substitution map are
      written. */
  lemma LockIgnoresListing(w: World, m: Manifest, n: Manifest, fork: string)
    requires ValidManifest(m) && ValidManifest(n)
    requires m.tag == n.tag && m.base == n.base && |m.stack| == |n.stack|
    requires forall i | 0 <= i < |m.stack| :: SameListing(m.stack[i], n.stack[i])
    requires Build(w, m, fork).Success?
    ensures Build(w, n, fork) == Build(w, m, fork)
  {
    BuildStackIgnoresListing(w, m.stack, n.stack, Progress(w.baseOf(m.base).value, [], None));
  }

  // --- What the lock records per entry --------------------------------------------------

  /** What is recorded for one selected commit: itself, or a substitute on the fetched
      branch. */
  predicate Recorded(w: World, entry: Entry, upstream: string, r: Picked) {
    && r.pr == entry.pr
    && r.upstream == upstream
    && match Replacement(entry, upstream)
       case None => r.applied == upstream
       case Some(name) =>
         && entry.rebased.Some?
         && w.git.revParse(name) == Some(r.applied)
         && w.git.find(r.applied).Some?
         && w.forkRef(entry.rebased.value.ref).Some?
         && IsAncestor(w.git.find(r.applied).value, w.forkRef(entry.rebased.value.ref).value)
  }

  function Selected(w: World, entry: Entry): Result<seq<string>, SelectError> {
    match w.heads(entry.source, entry.pr)
    case None => Failure(NoCommits)
    case Some(actual) => Select(entry, actual)
  }

  /** The picks recorded for one entry: one per selected commit, in head order. */
  predicate Segment(w: World, entry: Entry, segment: seq<Picked>) {
    && Selected(w, entry).Success?
    && |segment| == |Selected(w, entry).value|
    && forall k | 0 <= k < |segment| :: Recorded(w, entry, Selected(w, entry).value[k], segment[k])
  }

  function Flatten<T>(xss: seq<seq<T>>): seq<T> {
    if xss == [] then [] else xss[0] + Flatten(xss[1..])
  }

  predicate Substituted(git: Git, entry: Entry, tip: Option<Commit>, sha: string, r: Picked) {
    r.pr == entry.pr && r.upstream == sha && Substitute(git, entry, sha, tip) == Success(r.applied)
  }

  lemma {:induction false} PickAllRecords(git: Git, entry: Entry, tip: Option<Commit>, p: Progress, shas: seq<string>)
    returns (segment: seq<Picked>)
    requires PickAll(git, entry, tip, p, shas).failed.None?
    ensures PickAll(git, entry, tip, p, shas).picked == p.picked + segment
    ensures |segment| == |shas|
    ensures forall k | 0 <= k < |shas| :: Substituted(git, entry, tip, shas[k], segment[k])
    decreases |shas|
  {
    if p.failed.Some? || shas == [] {
      segment := [];
    } else {
      var q := PickOne(git, entry, tip, p, shas[0]);
      var rest := PickAllRecords(git, entry, tip, q, shas[1..]);
      var r := q.picked[|p.picked|];
      assert Substituted(git, entry, tip, shas[0], r);
      segment := [r] + rest;
      assert p.picked + [r] + rest == p.picked + segment;
      forall k | 0 <= k < |shas| ensures Substituted(git, entry, tip, shas[k], segment[k]) {
        if k > 0 { assert shas[k] == shas[1..][k - 1] && segment[k] == rest[k - 1]; }
      }
    }
  }

  lemma BuildEntryRecords(w: World, entry: Entry, p: Progress) returns (segment: seq<Picked>)
    requires p.failed.None? && BuildEntry(w, entry, p).failed.None?
    ensures BuildEntry(w, entry, p).picked == p.picked + segment
    ensures Segment(w, entry, segment)
  {
    var (shas, tip) := Prepare(w, entry).value;
    segment := PickAllRecords(w.git, entry, tip, p, shas);
    forall k | 0 <= k < |shas| ensures Recorded(w, entry, shas[k], segment[k]) {
      assert Substituted(w.git, entry, tip, shas[k], segment[k]);
    }
  }

  /** One segment per entry, in stack order. */
  predicate Segments(w: World, stack: seq<Entry>, segments: seq<seq<Picked>>)
    decreases |stack|
  {
    && |segments| == |stack|
    && (stack == [] || (Segment(w, stack[0], segments[0]) && Segments(w, stack[1..], segments[1..])))
  }

  lemma BuildStackStep(w: World, stack: seq<Entry>, p: Progress)
    requires stack != [] && BuildStack(w, stack, p).failed.None?
    ensures p.failed.None? && BuildEntry(w, stack[0], p).failed.None?
    ensures BuildStack(w, stack, p) == BuildStack(w, stack[1..], BuildEntry(w, stack[0], p))
  {
  }

  lemma SegmentsCons(w: World, stack: seq<Entry>, first: seq<Picked>, rest: seq<seq<Picked>>)
    requires stack != [] && Segment(w, stack[0], first) && Segments(w, stack[1..], rest)
    ensures Segments(w, stack, [first] + rest)
    ensures Flatten([first] + rest) == first + Flatten(rest)
  {
    assert ([first] + rest)[1..] == rest;
  }

  lemma Regroup<T>(a: seq<T>, b: seq<T>, c: seq<T>)
    ensures (a + b) + c == a + (b + c)
  {
  }

  lemma {:induction false} BuildStackRecords(w: World, stack: seq<Entry>, p: Progress)
    returns (segments: seq<seq<Picked>>)
    requires BuildStack(w, stack, p).failed.None?
    ensures Segments(w, stack, segments)
    ensures BuildStack(w, stack, p).picked == p.picked + Flatten(segments)
    decreases |stack|
  {
    if stack == [] {
      segments := [];
    } else {
      BuildStackStep(w, stack, p);
      var q := BuildEntry(w, stack[0], p);
      var first := BuildEntryRecords(w, stack[0], p);
      var rest := BuildStackRecords(w, stack[1..], q);
      segments := [first] + rest;
      SegmentsCons(w, stack, first, rest);
      Regroup(p.picked, first, Flatten(rest));
    }
  }

  /** A lock is the concatenation of one segment per entry: each selected commit once, in
      head order, applied as itself or as its substitute, and every substitute is an ancestor
      of the fetched branch. */
  lemma LockIsSegments(w: World, m: Manifest, fork: string) returns (segments: seq<seq<Picked>>)
    requires Build(w, m, fork).Success?
    ensures Segments(w, m.stack, segments)
    ensures Build(w, m, fork).value.picked == Flatten(segments)
  {
    segments := BuildStackRecords(w, m.stack, Progress(w.baseOf(m.base).value, [], None));
  }
}
