/** Release manifests: what tools/stack.py reads and what it refuses to read. */
module Manifests {
  import opened Wrappers

  /** One parsed stack entry. `subst` keeps the insertion order of the YAML mapping,
      because the code that reads it takes the first key that matches. */
  datatype Rebased = Rebased(ref: string, subst: seq<(string, string)>)

  datatype Entry = Entry(
    pr: int, source: string, why: string,
    pick: seq<string>, skip: seq<string>, rebased: Option<Rebased>)

  datatype Manifest = Manifest(tag: string, base: string, stack: seq<Entry>, frozen: bool)

  /** YAML as loaded. An absent key and a falsy value (0, "", []) are treated alike by the
      code, so one falsy value stands for both. */
  datatype RawRebased = NotAMapping | RawRebased(ref: string, subst: seq<(string, string)>)

  datatype RawEntry = RawEntry(
    pr: int, source: string, why: string,
    pick: seq<string>, skip: seq<string>, rebased: Option<RawRebased>)

  datatype RawStack = NotAList | Entries(entries: seq<RawEntry>)

  datatype RawManifest = NotADocument | Document(tag: string, base: string, stack: RawStack, frozen: bool)

  datatype ParseError =
    | NotMapping
    | MissingKey(key: string)
    | StackNotList
    | EntryError(index: nat, entryError: EntryFault)

  datatype EntryFault =
    | EntryMissingKey(key: string)
    | PickSkipOverlap(prefixes: set<string>)
    | DuplicateSha(list: string)
    | RebasedIncomplete
    | RebasedUnknown(prefixes: set<string>)

  function Elements<T>(xs: seq<T>): set<T> {
    set x | x in xs
  }

  predicate Distinct<T(==)>(xs: seq<T>) {
    forall i, j | 0 <= i < j < |xs| :: xs[i] != xs[j]
  }

  function Keys(subst: seq<(string, string)>): seq<string> {
    seq(|subst|, i requires 0 <= i < |subst| => subst[i].0)
  }

  /** The validated shape every later stage relies on. */
  predicate ValidEntry(e: Entry) {
    && e.pr != 0 && e.source != "" && e.why != "" && e.pick != []
    && Distinct(e.pick) && Distinct(e.skip)
    && Elements(e.pick) !! Elements(e.skip)
    && (e.rebased.Some? ==>
          && e.rebased.value.ref != ""
          && e.rebased.value.subst != []
          && Elements(Keys(e.rebased.value.subst)) <= Elements(e.pick))
  }

  predicate ValidManifest(m: Manifest) {
    && m.tag != "" && m.base != "" && m.stack != []
    && forall e | e in m.stack :: ValidEntry(e)
  }

  /** The entry a raw mapping denotes when it is accepted. */
  function ToEntry(raw: RawEntry): Entry {
    Entry(raw.pr, raw.source, raw.why, raw.pick, raw.skip,
          match raw.rebased
          case Some(RawRebased(ref, subst)) => Some(Rebased(ref, subst))
          case _ => None)
  }

  /** The body of the parsing loop: the checks of one entry, in the order they are made. */
  function ParseEntry(raw: RawEntry): Result<Entry, EntryFault> {
    if raw.pr == 0 then Failure(EntryMissingKey("pr"))
    else if raw.source == "" then Failure(EntryMissingKey("source"))
    else if raw.why == "" then Failure(EntryMissingKey("why"))
    else if raw.pick == [] then Failure(EntryMissingKey("pick"))
    else
      var overlap := Elements(raw.pick) * Elements(raw.skip);
      if overlap != {} then Failure(PickSkipOverlap(overlap))
      else if |Elements(raw.pick)| != |raw.pick| then Failure(DuplicateSha("pick"))
      else if |Elements(raw.skip)| != |raw.skip| then Failure(DuplicateSha("skip"))
      else match raw.rebased
        case None => Success(ToEntry(raw))
        case Some(NotAMapping) => Failure(RebasedIncomplete)
        case Some(RawRebased(ref, subst)) =>
          if ref == "" || subst == [] then Failure(RebasedIncomplete)
          else
            var unknown := Elements(Keys(subst)) - Elements(raw.pick);
            if unknown != {} then Failure(RebasedUnknown(unknown))
            else Success(ToEntry(raw))
  }

  /** Counting distinct elements, as the code does, detects exactly the duplicates. */
  lemma {:induction false} DistinctIffCount<T>(xs: seq<T>)
    ensures |Elements(xs)| <= |xs|
    ensures |Elements(xs)| == |xs| <==> Distinct(xs)
  {
    if xs == [] {
    } else {
      var rest := xs[1..];
      DistinctIffCount(rest);
      assert xs == [xs[0]] + rest;
      if xs[0] in rest {
        assert Elements(xs) == Elements(rest);
        var k :| 0 <= k < |rest| && rest[k] == xs[0];
        assert xs[0] == xs[k + 1];
      } else {
        assert Elements(xs) == Elements(rest) + {xs[0]};
        if Distinct(rest) {
          forall i, j | 0 <= i < j < |xs| ensures xs[i] != xs[j] {
            assert xs[j] == rest[j - 1];
            if i > 0 { assert xs[i] == rest[i - 1]; }
          }
        } else {
          var i, j :| 0 <= i < j < |rest| && rest[i] == rest[j];
          assert xs[i + 1] == xs[j + 1];
        }
      }
    }
  }

  /** An entry is accepted exactly when what it denotes is valid and its `rebased`, when
      given at all, is a mapping. */
  lemma ParseEntryAccepts(raw: RawEntry)
    ensures ParseEntry(raw).Success? <==> ValidEntry(ToEntry(raw)) && raw.rebased != Some(NotAMapping)
    ensures ParseEntry(raw).Success? ==> ParseEntry(raw).value == ToEntry(raw)
  {
    DistinctIffCount(raw.pick);
    DistinctIffCount(raw.skip);
    var p, s := Elements(raw.pick), Elements(raw.skip);
    assert forall x | x in p && x in s :: x in p * s;
    if raw.rebased.Some? && raw.rebased.value.RawRebased? {
      var k := Elements(Keys(raw.rebased.value.subst));
      assert forall x | x in k - p :: x in k && x !in p;
      assert forall x | x in k && x !in p :: x in k - p;
    }
  }

  /** What a reported fault means. */
  lemma FaultsAreReal(raw: RawEntry)
    requires ParseEntry(raw).Failure?
    ensures match ParseEntry(raw).error
            case EntryMissingKey(key) =>
              || (key == "pr" && raw.pr == 0) || (key == "source" && raw.source == "")
              || (key == "why" && raw.why == "") || (key == "pick" && raw.pick == [])
            case PickSkipOverlap(both) => both != {} && forall p :: p in both <==> p in raw.pick && p in raw.skip
            case DuplicateSha(list) =>
              (list == "pick" && !Distinct(raw.pick)) || (list == "skip" && !Distinct(raw.skip))
            case RebasedIncomplete =>
              && raw.rebased.Some?
              && (raw.rebased.value.NotAMapping? || raw.rebased.value.ref == "" || raw.rebased.value.subst == [])
            case RebasedUnknown(unknown) =>
              && unknown != {} && raw.rebased.Some? && raw.rebased.value.RawRebased?
              && forall p :: p in unknown <==> p in Keys(raw.rebased.value.subst) && p !in raw.pick
  {
    DistinctIffCount(raw.pick);
    DistinctIffCount(raw.skip);
  }

  /** The whole document is acceptable. */
  predicate Acceptable(raw: RawManifest) {
    && raw.Document? && raw.tag != "" && raw.base != "" && raw.stack.Entries? && raw.stack.entries != []
    && forall r | r in raw.stack.entries :: ValidEntry(ToEntry(r)) && r.rebased != Some(NotAMapping)
  }

  /** The first fault of a document outside its entries. */
  function TopLevelFault(raw: RawManifest): Option<ParseError> {
    if raw.NotADocument? then Some(NotMapping)
    else if raw.tag == "" then Some(MissingKey("tag"))
    else if raw.base == "" then Some(MissingKey("base"))
    else if raw.stack == Entries([]) then Some(MissingKey("stack"))
    else if raw.stack.NotAList? then Some(StackNotList)
    else None
  }

  /** Parsing succeeds exactly on acceptable documents and keeps every entry in order.
      Otherwise it reports the fault at the top level, if there is one, and else the first entry
      that is at fault. */
  method ParseManifest(raw: RawManifest) returns (r: Result<Manifest, ParseError>)
    ensures r.Success? <==> Acceptable(raw)
    ensures r.Success? ==>
              && ValidManifest(r.value)
              && r.value.tag == raw.tag && r.value.base == raw.base && r.value.frozen == raw.frozen
              && |r.value.stack| == |raw.stack.entries|
              && forall i | 0 <= i < |raw.stack.entries| :: r.value.stack[i] == ToEntry(raw.stack.entries[i])
    ensures TopLevelFault(raw).Some? ==> r == Failure(TopLevelFault(raw).value)
    ensures r.Failure? && TopLevelFault(raw).None? ==> r.error.EntryError?
    ensures r.Failure? && r.error.EntryError? ==>
              && raw.Document? && raw.stack.Entries? && r.error.index < |raw.stack.entries|
              && ParseEntry(raw.stack.entries[r.error.index]) == Failure(r.error.entryError)
              && forall i | 0 <= i < r.error.index :: ParseEntry(raw.stack.entries[i]).Success?
  {
    if raw.NotADocument? { return Failure(NotMapping); }
    if raw.tag == "" { return Failure(MissingKey("tag")); }
    if raw.base == "" { return Failure(MissingKey("base")); }
    if raw.stack == Entries([]) { return Failure(MissingKey("stack")); }
    if raw.stack.NotAList? { return Failure(StackNotList); }
    var entries: seq<Entry> := [];
    var i := 0;
    while i < |raw.stack.entries|
      invariant 0 <= i <= |raw.stack.entries|
      invariant |entries| == i
      invariant forall k | 0 <= k < i ::
                  && entries[k] == ToEntry(raw.stack.entries[k])
                  && ValidEntry(entries[k])
                  && raw.stack.entries[k].rebased != Some(NotAMapping)
                  && ParseEntry(raw.stack.entries[k]).Success?
    {
      ParseEntryAccepts(raw.stack.entries[i]);
      var parsed := ParseEntry(raw.stack.entries[i]);
      if parsed.Failure? { return Failure(EntryError(i, parsed.error)); }
      entries := entries + [parsed.value];
      i := i + 1;
    }
    return Success(Manifest(raw.tag, raw.base, entries, raw.frozen));
  }
}
