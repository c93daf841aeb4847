/** Which commits of a pull request head an entry takes (tools/stack.py:204-253, 341-356). */
module Selection {
  import opened Wrappers
  import opened Manifests

  datatype SelectError =
    | NoCommits
    | NotOnHead(prefix: string)
    | Ambiguous(prefix: string)
    | Unaccounted(shas: seq<string>)
    // The uncaught lookup failure of `chosen[p]`: another prefix named the same commit.
    | Aliased(prefix: string)

  /** The full SHAs on the head that start with `prefix`, in head order. */
  function Hits(prefix: string, actual: seq<string>): seq<string> {
    if actual == [] then []
    else (if prefix <= actual[0] then [actual[0]] else []) + Hits(prefix, actual[1..])
  }

  function Resolve(prefix: string, actual: seq<string>): Result<string, SelectError> {
    var hits := Hits(prefix, actual);
    if |hits| == 0 then Failure(NotOnHead(prefix))
    else if |hits| > 1 then Failure(Ambiguous(prefix))
    else Success(hits[0])
  }

  /** `prefix` names position `k` of the head. */
  predicate Names(prefix: string, actual: seq<string>, k: nat) {
    k < |actual| && prefix <= actual[k]
  }

  ghost predicate NamesOnly(prefix: string, actual: seq<string>, k: nat) {
    && Names(prefix, actual, k)
    && forall j: nat | Names(prefix, actual, j) :: j == k
  }

  /** A commit is named by one of the prefixes. */
  predicate NamedBy(prefixes: seq<string>, sha: string) {
    exists p :: p in prefixes && p <= sha
  }

  /** The head filtered to the commits the prefixes name, in head order. */
  function KeepNamed(actual: seq<string>, prefixes: seq<string>): seq<string> {
    if actual == [] then []
    else (if NamedBy(prefixes, actual[0]) then [actual[0]] else []) + KeepNamed(actual[1..], prefixes)
  }

  function KeepIn(actual: seq<string>, wanted: set<string>): seq<string> {
    if actual == [] then []
    else (if actual[0] in wanted then [actual[0]] else []) + KeepIn(actual[1..], wanted)
  }

  function KeepMissing(actual: seq<string>, declared: map<string, string>): seq<string> {
    if actual == [] then []
    else (if actual[0] !in declared then [actual[0]] else []) + KeepMissing(actual[1..], declared)
  }

  /** Every recorded prefix resolves to the commit it is recorded under, so inverting the
      dictionary is unambiguous. */
  predicate Declared(declared: map<string, string>, actual: seq<string>) {
    forall full | full in declared :: Resolve(declared[full], actual) == Success(full)
  }

  /** The effect of one declaring loop: later prefixes overwrite earlier ones. */
  function Declare(prefixes: seq<string>, actual: seq<string>, declared: map<string, string>)
    : (r: Result<map<string, string>, SelectError>)
    requires Declared(declared, actual)
    ensures r.Success? ==> Declared(r.value, actual)
  {
    if prefixes == [] then Success(declared)
    else
      var full :- Resolve(prefixes[0], actual);
      Declare(prefixes[1..], actual, declared[full := prefixes[0]])
  }

  /** `{p: full for full, p in declared.items()}` */
  function Invert(declared: map<string, string>, actual: seq<string>): map<string, string>
    requires Declared(declared, actual)
  {
    map full | full in declared :: declared[full] := full
  }

  function Exhaustive(entry: Entry, actual: seq<string>): Result<map<string, string>, SelectError> {
    var picks :- Declare(entry.pick, actual, map[]);
    var declared :- Declare(entry.skip, actual, picks);
    var missing := KeepMissing(actual, declared);
    if missing != [] then Failure(Unaccounted(missing)) else Success(Invert(declared, actual))
  }

  /** check_exhaustive: two loops filling one dictionary, then its inversion. */
  method CheckExhaustive(entry: Entry, actual: seq<string>)
    returns (r: Result<map<string, string>, SelectError>)
    ensures r == Exhaustive(entry, actual)
  {
    var declared: map<string, string> := map[];
    var i := 0;
    while i < |entry.pick|
      invariant 0 <= i <= |entry.pick|
      invariant Declared(declared, actual)
      invariant Declare(entry.pick, actual, map[]) == Declare(entry.pick[i..], actual, declared)
    {
      var full := Resolve(entry.pick[i], actual);
      if full.Failure? { return Failure(full.error); }
      declared := declared[full.value := entry.pick[i]];
      i := i + 1;
    }
    ghost var picks := declared;
    i := 0;
    while i < |entry.skip|
      invariant 0 <= i <= |entry.skip|
      invariant Declared(declared, actual)
      invariant Declare(entry.skip, actual, picks) == Declare(entry.skip[i..], actual, declared)
    {
      var full := Resolve(entry.skip[i], actual);
      if full.Failure? { return Failure(full.error); }
      declared := declared[full.value := entry.skip[i]];
      i := i + 1;
    }
    var unaccounted := KeepMissing(actual, declared);
    if unaccounted != [] { return Failure(Unaccounted(unaccounted)); }
    return Success(Invert(declared, actual));
  }

  /** First pick whose lookup in `chosen` fails. */
  function FirstAliased(pick: seq<string>, chosen: map<string, string>): Option<string> {
    if pick == [] then None
    else if pick[0] !in chosen then Some(pick[0])
    else FirstAliased(pick[1..], chosen)
  }

  function Looked(pick: seq<string>, chosen: map<string, string>): set<string> {
    set p | p in pick && p in chosen :: chosen[p]
  }

  /** The selection made for one entry: the commits to apply, in head order. */
  function Select(entry: Entry, actual: seq<string>): Result<seq<string>, SelectError> {
    if actual == [] then Failure(NoCommits)
    else
      var chosen :- Exhaustive(entry, actual);
      match FirstAliased(entry.pick, chosen)
      case Some(p) => Failure(Aliased(p))
      case None => Success(KeepIn(actual, Looked(entry.pick, chosen)))
  }

  /** What a manifest author can check by eye: every prefix names exactly one commit of a
      non-empty head, every commit is named, and a picked commit is named only once. */
  ghost predicate ExactPartition(entry: Entry, actual: seq<string>) {
    var all := entry.pick + entry.skip;
    && actual != []
    && (forall p | p in all :: exists k: nat :: NamesOnly(p, actual, k))
    && (forall a | a in actual :: NamedBy(all, a))
    && (forall a, p, q | a in actual && p in entry.pick && q in all && p <= a && q <= a :: p == q)
  }

  // --- Resolving one prefix -------------------------------------------------------------

  /** A prefix resolves exactly when it names one position and no other. */
  lemma {:induction false} ResolveIffNamesOnly(prefix: string, actual: seq<string>, k: nat)
    requires k < |actual|
    ensures NamesOnly(prefix, actual, k) ==> Hits(prefix, actual) == [actual[k]]
    ensures |Hits(prefix, actual)| == 1 ==> exists j: nat :: NamesOnly(prefix, actual, j)
    ensures Hits(prefix, actual) == [] <==> forall j: nat :: !Names(prefix, actual, j)
  {
    HitsNone(prefix, actual);
    var rest := actual[1..];
    if rest == [] {
      assert actual == [actual[0]];
      assert Hits(prefix, rest) == [];
      if |Hits(prefix, actual)| == 1 { assert NamesOnly(prefix, actual, 0); }
    } else {
      HitsNone(prefix, rest);
      if k == 0 {
        ResolveIffNamesOnly(prefix, rest, 0);
        if NamesOnly(prefix, actual, 0) {
          forall j: nat ensures !Names(prefix, rest, j) {
            assert !Names(prefix, actual, j + 1);
          }
        }
      } else {
        ResolveIffNamesOnly(prefix, rest, k - 1);
        if NamesOnly(prefix, actual, k) {
          assert Names(prefix, rest, k - 1);
          forall j: nat | Names(prefix, rest, j) ensures j == k - 1 {
            assert Names(prefix, actual, j + 1);
          }
          assert !Names(prefix, actual, 0);
        }
      }
      if |Hits(prefix, actual)| == 1 {
        if prefix <= actual[0] {
          assert Hits(prefix, rest) == [];
          forall j: nat | Names(prefix, actual, j) ensures j == 0 {
            if j > 0 { assert Names(prefix, rest, j - 1); }
          }
          assert NamesOnly(prefix, actual, 0);
        } else {
          var j: nat :| NamesOnly(prefix, rest, j);
          forall i: nat | Names(prefix, actual, i) ensures i == j + 1 {
            assert i > 0 && Names(prefix, rest, i - 1);
          }
          assert NamesOnly(prefix, actual, j + 1);
        }
      }
    }
  }

  lemma {:induction false} HitsNone(prefix: string, actual: seq<string>)
    ensures Hits(prefix, actual) == [] <==> forall j: nat :: !Names(prefix, actual, j)
  {
    if actual != [] {
      HitsNone(prefix, actual[1..]);
      if Hits(prefix, actual) == [] {
        forall j: nat ensures !Names(prefix, actual, j) {
          if j > 0 && Names(prefix, actual, j) { assert Names(prefix, actual[1..], j - 1); }
        }
      } else if !(prefix <= actual[0]) {
        var j: nat :| Names(prefix, actual[1..], j);
        assert Names(prefix, actual, j + 1);
      } else {
        assert Names(prefix, actual, 0);
      }
    }
  }

  /** A resolving prefix determines its commit: no other commit of the head starts with it. */
  lemma ResolveDetermines(prefix: string, actual: seq<string>)
    requires Resolve(prefix, actual).Success?
    ensures var full := Resolve(prefix, actual).value;
            full in actual && prefix <= full && forall a | a in actual && prefix <= a :: a == full
    ensures exists k: nat :: NamesOnly(prefix, actual, k)
  {
    HitsNone(prefix, actual);
    var j: nat :| Names(prefix, actual, j);
    ResolveIffNamesOnly(prefix, actual, j);
    var k: nat :| NamesOnly(prefix, actual, k);
    ResolveIffNamesOnly(prefix, actual, k);
    forall a | a in actual && prefix <= a ensures a == actual[k] {
      var i :| 0 <= i < |actual| && actual[i] == a;
      assert Names(prefix, actual, i);
    }
  }

  // --- The declaring loops --------------------------------------------------------------

  /** A declaring loop fails exactly when a prefix does not resolve; otherwise every commit
      recorded was declared here, or was recorded before and is named by nothing here. */
  lemma {:induction false} DeclareOutcome(prefixes: seq<string>, actual: seq<string>, declared: map<string, string>)
    requires Declared(declared, actual)
    ensures Declare(prefixes, actual, declared).Success? <==>
              forall p | p in prefixes :: Resolve(p, actual).Success?
    ensures Declare(prefixes, actual, declared).Success? ==>
              var r := Declare(prefixes, actual, declared).value;
              && declared.Keys <= r.Keys
              && (forall p | p in prefixes :: Resolve(p, actual).value in r && r[Resolve(p, actual).value] in prefixes)
              && (forall full | full in r ::
                    r[full] in prefixes || (full in declared && r[full] == declared[full]))
  {
    if prefixes == [] {
    } else {
      var p := prefixes[0];
      var rest := prefixes[1..];
      assert prefixes == [p] + rest;
      if Resolve(p, actual).Success? {
        var full := Resolve(p, actual).value;
        DeclareOutcome(rest, actual, declared[full := p]);
        if Declare(rest, actual, declared[full := p]).Success? {
          var r := Declare(rest, actual, declared[full := p]).value;
          assert full in r;
        }
      }
    }
  }

  lemma {:induction false} KeepMissingEmpty(actual: seq<string>, declared: map<string, string>)
    ensures KeepMissing(actual, declared) == [] <==> forall a | a in actual :: a in declared
  {
    if actual != [] {
      assert actual == [actual[0]] + actual[1..];
      KeepMissingEmpty(actual[1..], declared);
    }
  }

  lemma {:induction false} FirstAliasedNone(pick: seq<string>, chosen: map<string, string>)
    ensures FirstAliased(pick, chosen).None? <==> forall p | p in pick :: p in chosen
  {
    if pick != [] {
      assert pick == [pick[0]] + pick[1..];
      FirstAliasedNone(pick[1..], chosen);
    }
  }

  /** What a successful exhaustiveness check has established. */
  lemma ExhaustiveOutcome(entry: Entry, actual: seq<string>)
    ensures Exhaustive(entry, actual).Success? ==>
              && (forall p | p in entry.pick + entry.skip :: Resolve(p, actual).Success?)
              && (forall a | a in actual :: NamedBy(entry.pick + entry.skip, a))
              && (forall p | p in Exhaustive(entry, actual).value ::
                    Resolve(p, actual) == Success(Exhaustive(entry, actual).value[p]))
    ensures (forall p | p in entry.pick + entry.skip :: Resolve(p, actual).Success?) ==>
              (Exhaustive(entry, actual).Success? <==> forall a | a in actual :: NamedBy(entry.pick + entry.skip, a))
  {
    var all := entry.pick + entry.skip;
    var none: map<string, string> := map[];
    DeclareOutcome(entry.pick, actual, none);
    var picks := Declare(entry.pick, actual, none);
    if picks.Success? {
      DeclareOutcome(entry.skip, actual, picks.value);
      var declared := Declare(entry.skip, actual, picks.value);
      if declared.Success? {
        KeepMissingEmpty(actual, declared.value);
        forall a | a in actual ensures a in declared.value <==> NamedBy(all, a) {
          if a in declared.value {
            assert Resolve(declared.value[a], actual) == Success(a);
            ResolveDetermines(declared.value[a], actual);
            assert declared.value[a] in all;
          } else if NamedBy(all, a) {
            var p :| p in all && p <= a;
            ResolveDetermines(p, actual);
          }
        }
      }
    }
  }

  /** The main result on selection: the two dictionaries, the last-write-wins overwriting,
      the inversion and the final lookup together accept exactly the exact partitions. */
  lemma SelectIffExactPartition(entry: Entry, actual: seq<string>)
    requires ValidEntry(entry)
    ensures Select(entry, actual).Success? <==> ExactPartition(entry, actual)
  {
    if Select(entry, actual).Success? {
      SelectOnlyPartitions(entry, actual);
    }
    if ExactPartition(entry, actual) {
      SelectAcceptsPartition(entry, actual);
    }
  }

  lemma SelectAcceptsPartition(entry: Entry, actual: seq<string>)
    requires ExactPartition(entry, actual)
    ensures Select(entry, actual).Success?
  {
    var all := entry.pick + entry.skip;
    forall p | p in all ensures Resolve(p, actual).Success? {
      var k: nat :| NamesOnly(p, actual, k);
      ResolveIffNamesOnly(p, actual, k);
    }
    ExhaustiveOutcome(entry, actual);
    var chosen := Exhaustive(entry, actual).value;
    var picks := Declare(entry.pick, actual, map[]).value;
    var declared := Declare(entry.skip, actual, picks).value;
    DeclareOutcome(entry.pick, actual, map[]);
    DeclareOutcome(entry.skip, actual, picks);
    forall p | p in entry.pick ensures p in chosen {
      var full := Resolve(p, actual).value;
      assert full in declared;
      ResolveDetermines(p, actual);
      ResolveDetermines(declared[full], actual);
      assert declared[full] in all;
      assert declared[full] == p;
    }
    FirstAliasedNone(entry.pick, chosen);
  }

  lemma SelectOnlyPartitions(entry: Entry, actual: seq<string>)
    requires ValidEntry(entry)
    requires Select(entry, actual).Success?
    ensures ExactPartition(entry, actual)
  {
    var all := entry.pick + entry.skip;
    ExhaustiveOutcome(entry, actual);
    forall p | p in all ensures exists k: nat :: NamesOnly(p, actual, k) {
      ResolveDetermines(p, actual);
    }
    forall a, p, q | a in actual && p in entry.pick && q in all && p <= a && q <= a ensures p == q {
      PickNamesAlone(entry, actual, a, p, q);
    }
  }

  /** A surviving pick is the last prefix recorded for its commit, so no other declaration
      names that commit: a later skip would have overwritten it, another pick would not
      have survived itself. */
  lemma PickNamesAlone(entry: Entry, actual: seq<string>, a: string, p: string, q: string)
    requires ValidEntry(entry)
    requires Select(entry, actual).Success?
    requires a in actual && p in entry.pick && q in entry.pick + entry.skip && p <= a && q <= a
    ensures p == q
  {
    var picks := Declare(entry.pick, actual, map[]).value;
    var declared := Declare(entry.skip, actual, picks).value;
    SurvivorIsRecorded(entry, actual, a, p);
    if q in entry.pick {
      SurvivorIsRecorded(entry, actual, a, q);
    } else {
      DeclaredHere(entry.skip, actual, picks, a, q);
      assert declared[a] in Elements(entry.pick) && declared[a] in Elements(entry.skip);
    }
  }

  lemma SurvivorIsRecorded(entry: Entry, actual: seq<string>, a: string, p: string)
    requires Select(entry, actual).Success?
    requires a in actual && p in entry.pick && p <= a
    ensures var declared := Declare(entry.skip, actual, Declare(entry.pick, actual, map[]).value).value;
            a in declared && declared[a] == p
  {
    ExhaustiveOutcome(entry, actual);
    assert p in entry.pick + entry.skip;
    ResolveDetermines(p, actual);
    FirstAliasedNone(entry.pick, Exhaustive(entry, actual).value);
  }

  lemma DeclaredHere(prefixes: seq<string>, actual: seq<string>, declared: map<string, string>, a: string, q: string)
    requires Declared(declared, actual) && Declare(prefixes, actual, declared).Success?
    requires a in actual && q in prefixes && q <= a
    ensures a in Declare(prefixes, actual, declared).value
    ensures Declare(prefixes, actual, declared).value[a] in prefixes
  {
    DeclareOutcome(prefixes, actual, declared);
    ResolveDetermines(q, actual);
  }

  // --- What a selection is --------------------------------------------------------------

  /** On success the head has no duplicates and the selection is the head filtered to the
      commits the picks name, in head order. */
  lemma SelectionIsFilteredHead(entry: Entry, actual: seq<string>)
    requires ValidEntry(entry)
    requires Select(entry, actual).Success?
    ensures Distinct(actual)
    ensures Select(entry, actual).value == KeepNamed(actual, entry.pick)
  {
    SelectOnlyPartitions(entry, actual);
    var all := entry.pick + entry.skip;
    forall i, j | 0 <= i < j < |actual| ensures actual[i] != actual[j] {
      assert actual[i] in actual && NamedBy(all, actual[i]);
      var p :| p in all && p <= actual[i];
      var k: nat :| NamesOnly(p, actual, k);
      assert Names(p, actual, i);
      assert Names(p, actual, j) <==> p <= actual[j];
    }
    ExhaustiveOutcome(entry, actual);
    var chosen := Exhaustive(entry, actual).value;
    FirstAliasedNone(entry.pick, chosen);
    forall a | a in actual ensures a in Looked(entry.pick, chosen) <==> NamedBy(entry.pick, a) {
      if a in Looked(entry.pick, chosen) {
        var p :| p in entry.pick && p in chosen && chosen[p] == a;
        ResolveDetermines(p, actual);
      }
      if NamedBy(entry.pick, a) {
        var p :| p in entry.pick && p <= a;
        ResolveDetermines(p, actual);
        assert p in chosen && chosen[p] == a;
      }
    }
    KeepInIsKeepNamed(actual, Looked(entry.pick, chosen), entry.pick);
  }

  lemma {:induction false} KeepInIsKeepNamed(actual: seq<string>, wanted: set<string>, prefixes: seq<string>)
    requires forall a | a in actual :: a in wanted <==> NamedBy(prefixes, a)
    ensures KeepIn(actual, wanted) == KeepNamed(actual, prefixes)
  {
    if actual != [] {
      assert actual[0] in actual;
      KeepInIsKeepNamed(actual[1..], wanted, prefixes);
    }
  }

  lemma {:induction false} KeepNamedElements(actual: seq<string>, prefixes: seq<string>)
    ensures forall a :: a in KeepNamed(actual, prefixes) <==> a in actual && NamedBy(prefixes, a)
    ensures Distinct(actual) ==> Distinct(KeepNamed(actual, prefixes))
  {
    if actual != [] {
      assert actual == [actual[0]] + actual[1..];
      KeepNamedElements(actual[1..], prefixes);
      var rest := KeepNamed(actual[1..], prefixes);
      if Distinct(actual) {
        assert actual[0] !in actual[1..];
        assert actual[0] !in rest;
      }
    }
  }

  function ResolvedAll(prefixes: seq<string>, actual: seq<string>): seq<string>
    requires forall p | p in prefixes :: Resolve(p, actual).Success?
  {
    seq(|prefixes|, i requires 0 <= i < |prefixes| => Resolve(prefixes[i], actual).value)
  }

  /** Prefixes that resolve injectively are in bijection with the commits they name. */
  lemma OneCommitPerPick(pick: seq<string>, actual: seq<string>)
    requires forall p | p in pick :: Resolve(p, actual).Success?
    requires Distinct(ResolvedAll(pick, actual)) && Distinct(actual)
    ensures |KeepNamed(actual, pick)| == |pick|
  {
    var full := ResolvedAll(pick, actual);
    forall i | 0 <= i < |full| ensures full[i] in actual && pick[i] <= full[i] {
      ResolveDetermines(pick[i], actual);
    }
    var kept := KeepNamed(actual, pick);
    KeepNamedElements(actual, pick);
    forall a | a in kept ensures a in full {
      var p :| p in pick && p <= a;
      ResolveDetermines(p, actual);
      var i :| 0 <= i < |pick| && pick[i] == p;
      assert full[i] == a;
    }
    forall a | a in full ensures a in kept {
      var i :| 0 <= i < |full| && full[i] == a;
      assert pick[i] in pick;
    }
    assert Elements(kept) == Elements(full);
    DistinctIffCount(kept);
    DistinctIffCount(full);
  }

  lemma PicksResolveInjectively(entry: Entry, actual: seq<string>)
    requires ExactPartition(entry, actual) && Distinct(entry.pick)
    ensures forall p | p in entry.pick :: Resolve(p, actual).Success?
    ensures Distinct(ResolvedAll(entry.pick, actual))
  {
    forall p | p in entry.pick ensures p in entry.pick + entry.skip && Resolve(p, actual).Success? {
      assert p in entry.pick + entry.skip;
      var k: nat :| NamesOnly(p, actual, k);
      ResolveIffNamesOnly(p, actual, k);
    }
    forall i, j | 0 <= i < j < |entry.pick|
      ensures Resolve(entry.pick[i], actual) != Resolve(entry.pick[j], actual)
    {
      ResolveDetermines(entry.pick[i], actual);
      ResolveDetermines(entry.pick[j], actual);
      assert entry.pick[i] != entry.pick[j] && entry.pick[j] in entry.pick + entry.skip;
    }
  }

  function SkippedOf(actual: seq<string>, skip: seq<string>): set<string> {
    set a | a in actual && NamedBy(skip, a)
  }

  /** One commit per pick, and picks plus distinct skipped commits count the whole head. */
  lemma SelectionCounts(entry: Entry, actual: seq<string>)
    requires ValidEntry(entry)
    requires Select(entry, actual).Success?
    ensures |Select(entry, actual).value| == |entry.pick|
    ensures |entry.pick| + |SkippedOf(actual, entry.skip)| == |actual|
  {
    SelectOnlyPartitions(entry, actual);
    SelectionIsFilteredHead(entry, actual);
    PicksResolveInjectively(entry, actual);
    OneCommitPerPick(entry.pick, actual);
    HeadIsSplit(entry, actual);
  }

  lemma HeadIsSplit(entry: Entry, actual: seq<string>)
    requires ValidEntry(entry) && ExactPartition(entry, actual) && Distinct(actual)
    ensures |KeepNamed(actual, entry.pick)| + |SkippedOf(actual, entry.skip)| == |actual|
  {
    var kept := KeepNamed(actual, entry.pick);
    var skipped := SkippedOf(actual, entry.skip);
    KeepNamedElements(actual, entry.pick);
    DistinctIffCount(kept);
    DistinctIffCount(actual);
    forall a | a in Elements(kept) ensures a !in skipped {
      PickedIsNotSkipped(entry, actual, a);
    }
    forall a | a in actual ensures a in Elements(kept) || a in skipped {
      var p :| p in entry.pick + entry.skip && p <= a;
    }
    assert Elements(actual) == Elements(kept) + skipped;
  }

  lemma PickedIsNotSkipped(entry: Entry, actual: seq<string>, a: string)
    requires ValidEntry(entry) && ExactPartition(entry, actual)
    requires a in actual && NamedBy(entry.pick, a)
    ensures !NamedBy(entry.skip, a)
  {
    var p :| p in entry.pick && p <= a;
    assert p in Elements(entry.pick) && p !in Elements(entry.skip);
    forall q | q in entry.skip ensures !(q <= a) {
      assert q in entry.pick + entry.skip && q in Elements(entry.skip);
    }
  }

  /** The order in which prefixes are listed never changes what is selected. */
  lemma SelectionIgnoresListing(e: Entry, f: Entry, actual: seq<string>)
    requires ValidEntry(e) && ValidEntry(f)
    requires Elements(e.pick) == Elements(f.pick) && Elements(e.skip) == Elements(f.skip)
    ensures Select(e, actual).Success? <==> Select(f, actual).Success?
    ensures Select(e, actual).Success? ==> Select(e, actual) == Select(f, actual)
  {
    SelectIffExactPartition(e, actual);
    SelectIffExactPartition(f, actual);
    forall p ensures p in e.pick <==> p in f.pick { assert p in Elements(e.pick) <==> p in Elements(f.pick); }
    forall p ensures p in e.skip <==> p in f.skip { assert p in Elements(e.skip) <==> p in Elements(f.skip); }
    var alle, allf := e.pick + e.skip, f.pick + f.skip;
    assert forall p :: p in alle <==> p in allf;
    forall a ensures NamedBy(alle, a) <==> NamedBy(allf, a) {}
    if Select(e, actual).Success? {
      assert ExactPartition(f, actual);
      SelectionIsFilteredHead(e, actual);
      SelectionIsFilteredHead(f, actual);
      KeepNamedSamePrefixes(actual, e.pick, f.pick);
    }
    if Select(f, actual).Success? {
      assert ExactPartition(e, actual);
    }
  }

  lemma {:induction false} KeepNamedSamePrefixes(actual: seq<string>, ps: seq<string>, qs: seq<string>)
    requires forall p :: p in ps <==> p in qs
    ensures KeepNamed(actual, ps) == KeepNamed(actual, qs)
  {
    if actual != [] {
      KeepNamedSamePrefixes(actual[1..], ps, qs);
    }
  }

  // --- What a refusal means -------------------------------------------------------------

  predicate TwoHits(prefix: string, actual: seq<string>, i: nat, j: nat) {
    i < j && Names(prefix, actual, i) && Names(prefix, actual, j)
  }

  lemma {:induction false} ManyHits(prefix: string, actual: seq<string>)
    requires |Hits(prefix, actual)| > 1
    ensures exists i: nat, j: nat :: TwoHits(prefix, actual, i, j)
  {
    var rest := actual[1..];
    if prefix <= actual[0] {
      HitsNone(prefix, rest);
      var j: nat :| Names(prefix, rest, j);
      assert TwoHits(prefix, actual, 0, j + 1);
    } else {
      ManyHits(prefix, rest);
      var i: nat, j: nat :| TwoHits(prefix, rest, i, j);
      assert TwoHits(prefix, actual, i + 1, j + 1);
    }
  }

  /** One of the prefixes names no commit, or two positions. */
  ghost predicate Unresolvable(e: SelectError, prefixes: seq<string>, actual: seq<string>) {
    match e
    case NotOnHead(p) => p in prefixes && forall a | a in actual :: !(p <= a)
    case Ambiguous(p) => p in prefixes && exists i: nat, j: nat :: TwoHits(p, actual, i, j)
    case _ => false
  }

  lemma {:induction false} DeclareErrorIsReal(
      prefixes: seq<string>, actual: seq<string>, declared: map<string, string>)
    requires Declared(declared, actual) && Declare(prefixes, actual, declared).Failure?
    ensures Unresolvable(Declare(prefixes, actual, declared).error, prefixes, actual)
    decreases |prefixes|
  {
    var p := prefixes[0];
    if Resolve(p, actual).Failure? {
      HitsNone(p, actual);
      forall a | a in actual && Hits(p, actual) == [] ensures !(p <= a) {
        var k :| 0 <= k < |actual| && actual[k] == a;
        assert !Names(p, actual, k);
      }
      if |Hits(p, actual)| > 1 { ManyHits(p, actual); }
    } else {
      DeclareErrorIsReal(prefixes[1..], actual, declared[Resolve(p, actual).value := p]);
    }
  }

  lemma {:induction false} KeepMissingElements(actual: seq<string>, declared: map<string, string>)
    ensures forall a :: a in KeepMissing(actual, declared) <==> a in actual && a !in declared
  {
    if actual != [] {
      assert actual == [actual[0]] + actual[1..];
      KeepMissingElements(actual[1..], declared);
    }
  }

  /** Each error names something that is wrong with the listing: a prefix that names nothing or
      two positions, exactly the commits nobody names, or a pick whose commit another prefix
      names too. */
  lemma SelectionErrorsAreReal(entry: Entry, actual: seq<string>)
    requires Select(entry, actual).Failure?
    ensures var all := entry.pick + entry.skip;
            match Select(entry, actual).error
            case NoCommits => actual == []
            case Unaccounted(shas) => shas != [] && forall a :: a in shas <==> a in actual && !NamedBy(all, a)
            case Aliased(p) =>
              p in entry.pick && exists q, a :: q in all && q != p && a in actual && p <= a && q <= a
            case e => Unresolvable(e, all, actual)
  {
    if actual != [] {
      var picks := Declare(entry.pick, actual, map[]);
      if picks.Failure? {
        DeclareErrorIsReal(entry.pick, actual, map[]);
      } else {
        var declared := Declare(entry.skip, actual, picks.value);
        if declared.Failure? {
          DeclareErrorIsReal(entry.skip, actual, picks.value);
        } else {
          DeclaredIsNamed(entry, actual);
          KeepMissingElements(actual, declared.value);
          if KeepMissing(actual, declared.value) == [] { AliasIsReal(entry, actual); }
        }
      }
    }
  }

  lemma DeclaredIsNamed(entry: Entry, actual: seq<string>)
    requires Declare(entry.pick, actual, map[]).Success?
    requires Declare(entry.skip, actual, Declare(entry.pick, actual, map[]).value).Success?
    ensures var declared := Declare(entry.skip, actual, Declare(entry.pick, actual, map[]).value).value;
            && (forall a | a in actual :: a in declared <==> NamedBy(entry.pick + entry.skip, a))
            && (forall a | a in declared :: declared[a] in entry.pick + entry.skip && declared[a] <= a && a in actual)
            && forall p | p in entry.pick + entry.skip :: Resolve(p, actual).Success?
  {
    var all := entry.pick + entry.skip;
    var picks := Declare(entry.pick, actual, map[]).value;
    var declared := Declare(entry.skip, actual, picks).value;
    DeclareOutcome(entry.pick, actual, map[]);
    DeclareOutcome(entry.skip, actual, picks);
    forall a | a in declared ensures declared[a] in all && declared[a] <= a && a in actual {
      ResolveDetermines(declared[a], actual);
    }
    forall a | a in actual && NamedBy(all, a) ensures a in declared {
      var p :| p in all && p <= a;
      ResolveDetermines(p, actual);
    }
  }

  lemma AliasIsReal(entry: Entry, actual: seq<string>)
    requires Exhaustive(entry, actual).Success? && FirstAliased(entry.pick, Exhaustive(entry, actual).value).Some?
    ensures var p := FirstAliased(entry.pick, Exhaustive(entry, actual).value).value;
            p in entry.pick && exists q, a ::
              q in entry.pick + entry.skip && q != p && a in actual && p <= a && q <= a
  {
    var chosen := Exhaustive(entry, actual).value;
    var declared := Declare(entry.skip, actual, Declare(entry.pick, actual, map[]).value).value;
    var p := FirstAliased(entry.pick, chosen).value;
    FirstAliasedIsMissing(entry.pick, chosen);
    DeclaredIsNamed(entry, actual);
    assert p in entry.pick + entry.skip;
    ResolveDetermines(p, actual);
    var full := Resolve(p, actual).value;
    assert NamedBy(entry.pick + entry.skip, full);
    assert declared[full] in chosen;
    assert declared[full] in entry.pick + entry.skip && declared[full] != p;
  }

  lemma {:induction false} FirstAliasedIsMissing(pick: seq<string>, chosen: map<string, string>)
    requires FirstAliased(pick, chosen).Some?
    ensures FirstAliased(pick, chosen).value in pick && FirstAliased(pick, chosen).value !in chosen
  {
    if pick[0] in chosen { FirstAliasedIsMissing(pick[1..], chosen); }
  }

  // --- Substitution ---------------------------------------------------------------------

  /** The value of the first key that is a prefix of `upstream`, in mapping order. */
  function FirstMatch(subst: seq<(string, string)>, upstream: string): Option<string> {
    if subst == [] then None
    else if subst[0].0 <= upstream then Some(subst[0].1)
    else FirstMatch(subst[1..], upstream)
  }

  function Replacement(entry: Entry, upstream: string): Option<string> {
    match entry.rebased
    case None => None
    case Some(r) => FirstMatch(r.subst, upstream)
  }

  predicate SubstUnique(subst: seq<(string, string)>) {
    forall i, j | 0 <= i < j < |subst| :: subst[i].0 != subst[j].0
  }

  lemma {:induction false} FirstMatchIsSomeMatch(subst: seq<(string, string)>, upstream: string)
    ensures FirstMatch(subst, upstream).None? <==> forall kv | kv in subst :: !(kv.0 <= upstream)
    ensures FirstMatch(subst, upstream).Some? ==>
              exists kv :: kv in subst && kv.0 <= upstream && FirstMatch(subst, upstream) == Some(kv.1)
  {
    if subst != [] {
      assert subst == [subst[0]] + subst[1..];
      FirstMatchIsSomeMatch(subst[1..], upstream);
    }
  }

  /** For a commit that is applied, at most one key matches; the commit is substituted
      exactly when the one pick naming it is a key, and by that key's value. */
  lemma SubstitutionIsUnambiguous(entry: Entry, actual: seq<string>, sha: string)
    requires ValidEntry(entry) && entry.rebased.Some? && SubstUnique(entry.rebased.value.subst)
    requires Select(entry, actual).Success? && sha in Select(entry, actual).value
    ensures forall kv, kv' | kv in entry.rebased.value.subst && kv' in entry.rebased.value.subst
                             && kv.0 <= sha && kv'.0 <= sha :: kv == kv'
    ensures exists p :: p in entry.pick && p <= sha
    ensures forall p | p in entry.pick && p <= sha ::
              && (Replacement(entry, sha).Some? <==> p in Keys(entry.rebased.value.subst))
              && forall kv | kv in entry.rebased.value.subst && kv.0 == p :: Replacement(entry, sha) == Some(kv.1)
  {
    SelectOnlyPartitions(entry, actual);
    SelectionIsFilteredHead(entry, actual);
    KeepNamedElements(actual, entry.pick);
    var subst := entry.rebased.value.subst;
    var all := entry.pick + entry.skip;
    forall kv | kv in subst ensures kv.0 in entry.pick && kv.0 in Keys(subst) {
      var i :| 0 <= i < |subst| && subst[i] == kv;
      assert Keys(subst)[i] == kv.0;
      assert kv.0 in Elements(Keys(subst));
      assert kv.0 in Elements(entry.pick);
    }
    assert forall p | p in entry.pick :: p in all;
    FirstMatchIsSomeMatch(subst, sha);
    forall p | p in Keys(subst) ensures exists kv :: kv in subst && kv.0 == p {
      var i :| 0 <= i < |subst| && Keys(subst)[i] == p;
      assert subst[i] in subst;
    }
  }

  /** So the order of the mapping is irrelevant on the commits that are applied. */
  lemma SubstitutionIgnoresMapOrder(e: Entry, f: Entry, actual: seq<string>, sha: string)
    requires ValidEntry(e) && ValidEntry(f)
    requires e.rebased.Some? && f.rebased.Some?
    requires SubstUnique(e.rebased.value.subst)
    requires Elements(e.rebased.value.subst) == Elements(f.rebased.value.subst)
    requires Select(e, actual).Success? && sha in Select(e, actual).value
    ensures Replacement(e, sha) == Replacement(f, sha)
  {
    var s, t := e.rebased.value.subst, f.rebased.value.subst;
    SubstitutionIsUnambiguous(e, actual, sha);
    FirstMatchIsSomeMatch(s, sha);
    FirstMatchIsSomeMatch(t, sha);
    assert forall kv :: kv in s <==> kv in Elements(s);
    assert forall kv :: kv in t <==> kv in Elements(t);
  }

  /** Without the validation done by the parser the partition property is false: a prefix
      listed in both pick and skip is applied. */
  lemma UnvalidatedOverlapIsApplied()
    ensures var e := Entry(1, "s", "w", ["a"], ["a"], None);
            Select(e, ["ab"]) == Success(["ab"]) && NamedBy(e.skip, "ab") && !ValidEntry(e)
  {
    var e := Entry(1, "s", "w", ["a"], ["a"], None);
    var head := ["ab"];
    var m: map<string, string> := map["ab" := "a"];
    assert head[1..] == [] && Hits("a", head) == ["ab"];
    assert Resolve("a", head) == Success("ab");
    assert e.pick[1..] == [] && m["ab" := "a"] == m;
    assert Declare(e.pick, head, map[]) == Success(m);
    assert Declare(e.skip, head, m) == Success(m);
    assert KeepMissing(head, m) == [];
    var chosen := Invert(m, head);
    assert Exhaustive(e, head) == Success(chosen);
    assert "ab" in m && m["ab"] == "a";
    assert "a" in chosen && chosen["a"] == "ab";
    assert FirstAliased(e.pick, chosen) == None;
    assert "a" in e.pick && "ab" in Looked(e.pick, chosen);
    assert KeepIn(head, Looked(e.pick, chosen)) == ["ab"];
    assert "a" in e.skip && "a" <= "ab";
    assert "a" in Elements(e.pick) * Elements(e.skip);
  }
}
