/** Mirrors and the review body: how the recorded picks are regrouped per entry
    (tools/stack.py:429-451, 467-486). */
module Review {
  import opened Wrappers
  import opened Manifests
  import opened Selection
  import opened Chain

  /** `[p for p in lock.picked if p.pr == pr]` */
  function Group(picked: seq<Picked>, pr: int): seq<Picked> {
    if picked == [] then []
    else (if picked[0].pr == pr then [picked[0]] else []) + Group(picked[1..], pr)
  }

  /** The commit an entry's mirror points at; None is the "nothing picked" error. */
  function MirrorTarget(entry: Entry, lock: Lock): Option<string> {
    var picked := Group(lock.picked, entry.pr);
    if picked == [] then None else Some(picked[|picked| - 1].upstream)
  }

  function PrNumbers(stack: seq<Entry>): seq<int> {
    seq(|stack|, i requires 0 <= i < |stack| => stack[i].pr)
  }

  function Groups(picked: seq<Picked>, prs: seq<int>): seq<seq<Picked>> {
    seq(|prs|, i requires 0 <= i < |prs| => Group(picked, prs[i]))
  }

  /** Non-empty segments, each carrying its own pull request number. */
  predicate Tagged(prs: seq<int>, segments: seq<seq<Picked>>) {
    && |prs| == |segments|
    && forall i | 0 <= i < |prs| :: Carries(segments[i], prs[i])
  }

  predicate Carries(segment: seq<Picked>, pr: int) {
    segment != [] && forall r | r in segment :: r.pr == pr
  }

  lemma {:induction false} GroupConcat(a: seq<Picked>, b: seq<Picked>, pr: int)
    ensures Group(a + b, pr) == Group(a, pr) + Group(b, pr)
  {
    if a == [] {
      assert a + b == b;
    } else {
      var first := if a[0].pr == pr then [a[0]] else [];
      GroupConcat(a[1..], b, pr);
      assert (a + b)[0] == a[0] && (a + b)[1..] == a[1..] + b;
      Regroup(first, Group(a[1..], pr), Group(b, pr));
    }
  }

  lemma {:induction false} GroupOwn(segment: seq<Picked>, tag: int, pr: int)
    requires forall r | r in segment :: r.pr == tag
    ensures Group(segment, pr) == if tag == pr then segment else []
  {
    if segment != [] {
      assert segment[0] in segment;
      assert segment == [segment[0]] + segment[1..];
      GroupOwn(segment[1..], tag, pr);
    }
  }

  /** Regrouping a lock yields, per pull request, the segments of all entries that share its
      number, in stack order. */
  function Sharing(prs: seq<int>, segments: seq<seq<Picked>>, pr: int): seq<Picked>
    requires |prs| == |segments|
  {
    if prs == [] then []
    else (if prs[0] == pr then segments[0] else []) + Sharing(prs[1..], segments[1..], pr)
  }

  lemma {:induction false} GroupIsSharing(prs: seq<int>, segments: seq<seq<Picked>>, pr: int)
    requires Tagged(prs, segments)
    ensures Group(Flatten(segments), pr) == Sharing(prs, segments, pr)
    decreases |prs|
  {
    if prs != [] {
      assert Carries(segments[0], prs[0]);
      forall i | 0 <= i < |prs| - 1 ensures Carries(segments[1..][i], prs[1..][i]) {
        assert Carries(segments[i + 1], prs[i + 1]);
      }
      GroupConcat(segments[0], Flatten(segments[1..]), pr);
      GroupOwn(segments[0], prs[0], pr);
      GroupIsSharing(prs[1..], segments[1..], pr);
    }
  }

  lemma {:induction false} SharingAbsent(prs: seq<int>, segments: seq<seq<Picked>>, pr: int)
    requires |prs| == |segments| && pr !in prs
    ensures Sharing(prs, segments, pr) == []
  {
    if prs != [] { SharingAbsent(prs[1..], segments[1..], pr); }
  }

  lemma {:induction false} SharingAlone(prs: seq<int>, segments: seq<seq<Picked>>, i: nat)
    requires |prs| == |segments| && Distinct(prs) && i < |prs|
    ensures Sharing(prs, segments, prs[i]) == segments[i]
  {
    if i == 0 {
      SharingAbsent(prs[1..], segments[1..], prs[0]);
    } else {
      SharingAlone(prs[1..], segments[1..], i - 1);
    }
  }

  /** A repeated number makes some group strictly longer than its entry's own segment. */
  lemma {:induction false} SharingLength(prs: seq<int>, segments: seq<seq<Picked>>, i: nat)
    requires Tagged(prs, segments) && i < |prs|
    ensures |Sharing(prs, segments, prs[i])| >= |segments[i]|
    ensures forall j | 0 <= j < |prs| && j != i && prs[j] == prs[i] ::
              |Sharing(prs, segments, prs[i])| > |segments[i]|
    decreases |prs|
  {
    forall k | 0 <= k < |prs| - 1 ensures Carries(segments[1..][k], prs[1..][k]) {
      assert Carries(segments[k + 1], prs[k + 1]);
    }
    assert Carries(segments[0], prs[0]);
    if i > 0 {
      SharingLength(prs[1..], segments[1..], i - 1);
      forall j | 0 <= j < |prs| && j != i && prs[j] == prs[i]
        ensures |Sharing(prs, segments, prs[i])| > |segments[i]|
      {
        if j > 0 { assert prs[1..][j - 1] == prs[1..][i - 1]; }
      }
    } else {
      forall j | 0 <= j < |prs| && j != i && prs[j] == prs[i]
        ensures |Sharing(prs, segments, prs[i])| > |segments[i]|
      {
        SharingLength(prs[1..], segments[1..], j - 1);
        assert Carries(segments[1..][j - 1], prs[1..][j - 1]);
      }
    }
  }

  lemma {:induction false} FlattenLonger<T>(xss: seq<seq<T>>, yss: seq<seq<T>>)
    requires |xss| == |yss| && forall i | 0 <= i < |xss| :: |xss[i]| >= |yss[i]|
    ensures |Flatten(xss)| >= |Flatten(yss)|
    ensures (exists i :: 0 <= i < |xss| && |xss[i]| > |yss[i]|) ==> |Flatten(xss)| > |Flatten(yss)|
    decreases |xss|
  {
    if xss != [] {
      FlattenLonger(xss[1..], yss[1..]);
      if exists i :: 0 <= i < |xss| && |xss[i]| > |yss[i]| {
        var i :| 0 <= i < |xss| && |xss[i]| > |yss[i]|;
        if i > 0 { assert |xss[1..][i - 1]| > |yss[1..][i - 1]|; }
      }
    }
  }

  /** Concatenating the per-entry groups gives back the recorded picks exactly when no pull
      request number is used by two entries. */
  lemma GroupsConserveIffDistinct(prs: seq<int>, segments: seq<seq<Picked>>)
    requires Tagged(prs, segments)
    ensures Flatten(Groups(Flatten(segments), prs)) == Flatten(segments) <==> Distinct(prs)
    ensures |Flatten(Groups(Flatten(segments), prs))| == |Flatten(segments)| <==> Distinct(prs)
  {
    var groups := Groups(Flatten(segments), prs);
    forall i | 0 <= i < |prs| ensures groups[i] == Sharing(prs, segments, prs[i]) && |groups[i]| >= |segments[i]| {
      GroupIsSharing(prs, segments, prs[i]);
      SharingLength(prs, segments, i);
    }
    FlattenLonger(groups, segments);
    if Distinct(prs) {
      forall i | 0 <= i < |prs| ensures groups[i] == segments[i] { SharingAlone(prs, segments, i); }
      assert groups == segments;
    } else {
      var i, j :| 0 <= i < j < |prs| && prs[i] == prs[j];
      SharingLength(prs, segments, i);
      assert |groups[i]| > |segments[i]|;
    }
  }

  // --- Builds ---------------------------------------------------------------------------

  lemma {:induction false} SegmentsAreTagged(w: World, stack: seq<Entry>, segments: seq<seq<Picked>>)
    requires Segments(w, stack, segments) && forall e | e in stack :: ValidEntry(e)
    ensures Tagged(PrNumbers(stack), segments)
    decreases |stack|
  {
    if stack != [] {
      SegmentsAreTagged(w, stack[1..], segments[1..]);
      SegmentCarries(w, stack[0], segments[0]);
      forall i | 0 <= i < |stack| ensures Carries(segments[i], PrNumbers(stack)[i]) {
        if i > 0 { assert Carries(segments[1..][i - 1], PrNumbers(stack[1..])[i - 1]); }
      }
    }
  }

  lemma SegmentCarries(w: World, entry: Entry, segment: seq<Picked>)
    requires Segment(w, entry, segment) && ValidEntry(entry)
    ensures Carries(segment, entry.pr)
  {
    SelectionCounts(entry, w.heads(entry.source, entry.pr).value);
    forall r | r in segment ensures r.pr == entry.pr {
      var k :| 0 <= k < |segment| && segment[k] == r;
      assert Recorded(w, entry, Selected(w, entry).value[k], segment[k]);
    }
  }

  /** Every entry of a built manifest has a mirror target, and the groups conserve the lock
      exactly when the pull request numbers are distinct. */
  lemma BuildConservesIffDistinct(w: World, m: Manifest, fork: string)
    requires ValidManifest(m) && Build(w, m, fork).Success?
    ensures var picked := Build(w, m, fork).value.picked;
            Flatten(Groups(picked, PrNumbers(m.stack))) == picked <==> Distinct(PrNumbers(m.stack))
    ensures forall e | e in m.stack :: MirrorTarget(e, Build(w, m, fork).value).Some?
  {
    var segments := LockIsSegments(w, m, fork);
    SegmentsAreTagged(w, m.stack, segments);
    var prs := PrNumbers(m.stack);
    GroupsConserveIffDistinct(prs, segments);
    forall e | e in m.stack ensures MirrorTarget(e, Build(w, m, fork).value).Some? {
      var i :| 0 <= i < |m.stack| && m.stack[i] == e;
      GroupIsSharing(prs, segments, prs[i]);
      SharingLength(prs, segments, i);
      assert Carries(segments[i], prs[i]);
    }
  }

  lemma {:induction false} SharingEndsWithLast(prs: seq<int>, segments: seq<seq<Picked>>, j: nat)
    requires |prs| == |segments| && j < |prs| && segments[j] != []
    requires forall k | j < k < |prs| :: prs[k] != prs[j]
    ensures var s := Sharing(prs, segments, prs[j]);
            s != [] && s[|s| - 1] == segments[j][|segments[j]| - 1]
  {
    if j == 0 {
      SharingAbsent(prs[1..], segments[1..], prs[0]);
    } else {
      SharingEndsWithLast(prs[1..], segments[1..], j - 1);
    }
  }

  lemma SegmentsTail(w: World, stack: seq<Entry>, segments: seq<seq<Picked>>)
    requires Segments(w, stack, segments) && stack != []
    ensures |segments| == |stack| && Segment(w, stack[0], segments[0]) && Segments(w, stack[1..], segments[1..])
  {
  }

  lemma {:induction false} SegmentsIndex(w: World, stack: seq<Entry>, segments: seq<seq<Picked>>, i: nat)
    requires Segments(w, stack, segments) && i < |stack|
    ensures |segments| == |stack| && Segment(w, stack[i], segments[i])
    decreases i
  {
    SegmentsTail(w, stack, segments);
    if i > 0 { SegmentsIndex(w, stack[1..], segments[1..], i - 1); }
  }

  lemma MirrorOfSegments(entry: Entry, lock: Lock, prs: seq<int>, segments: seq<seq<Picked>>, j: nat)
    requires Tagged(prs, segments) && lock.picked == Flatten(segments)
    requires j < |prs| && prs[j] == entry.pr && forall k | j < k < |prs| :: prs[k] != prs[j]
    ensures segments[j] != []
    ensures MirrorTarget(entry, lock) == Some(segments[j][|segments[j]| - 1].upstream)
  {
    GroupIsSharing(prs, segments, entry.pr);
    assert Carries(segments[j], prs[j]);
    SharingEndsWithLast(prs, segments, j);
  }

  lemma SegmentLast(w: World, entry: Entry, segment: seq<Picked>)
    requires Segment(w, entry, segment) && segment != []
    ensures var shas := Selected(w, entry).value;
            shas != [] && segment[|segment| - 1].upstream == shas[|shas| - 1]
  {
    var n := |segment| - 1;
    assert Recorded(w, entry, Selected(w, entry).value[n], segment[n]);
  }

  /** A mirror holds the last picked commit, in head order, of the last entry that shares its
      pull request number: always a picked commit of that entry and never a skipped one. */
  lemma MirrorHoldsLastPick(w: World, m: Manifest, fork: string, i: nat, j: nat)
    requires ValidManifest(m) && Build(w, m, fork).Success?
    requires i <= j < |m.stack| && m.stack[i].pr == m.stack[j].pr
    requires forall k | j < k < |m.stack| :: m.stack[k].pr != m.stack[j].pr
    ensures Selected(w, m.stack[j]).Success? && Selected(w, m.stack[j]).value != []
    ensures var shas := Selected(w, m.stack[j]).value;
            var target := shas[|shas| - 1];
            && MirrorTarget(m.stack[i], Build(w, m, fork).value) == Some(target)
            && NamedBy(m.stack[j].pick, target) && !NamedBy(m.stack[j].skip, target)
  {
    MirrorOfLast(w, m, fork, i, j);
    SelectedIsPicked(w, m.stack[j], |Selected(w, m.stack[j]).value| - 1);
  }

  lemma MirrorOfLast(w: World, m: Manifest, fork: string, i: nat, j: nat)
    requires ValidManifest(m) && Build(w, m, fork).Success?
    requires i <= j < |m.stack| && m.stack[i].pr == m.stack[j].pr
    requires forall k | j < k < |m.stack| :: m.stack[k].pr != m.stack[j].pr
    ensures Selected(w, m.stack[j]).Success? && Selected(w, m.stack[j]).value != []
    ensures var shas := Selected(w, m.stack[j]).value;
            MirrorTarget(m.stack[i], Build(w, m, fork).value) == Some(shas[|shas| - 1])
  {
    var lock := Build(w, m, fork).value;
    var segments := LockIsSegments(w, m, fork);
    SegmentsAreTagged(w, m.stack, segments);
    SegmentsIndex(w, m.stack, segments, j);
    LastSegmentMirrored(m, lock, segments, i, j);
    SegmentLast(w, m.stack[j], segments[j]);
  }

  lemma LastSegmentMirrored(m: Manifest, lock: Lock, segments: seq<seq<Picked>>, i: nat, j: nat)
    requires Tagged(PrNumbers(m.stack), segments) && lock.picked == Flatten(segments)
    requires i <= j < |m.stack| && m.stack[i].pr == m.stack[j].pr
    requires forall k | j < k < |m.stack| :: m.stack[k].pr != m.stack[j].pr
    ensures segments[j] != []
    ensures MirrorTarget(m.stack[i], lock) == Some(segments[j][|segments[j]| - 1].upstream)
  {
    MirrorOfSegments(m.stack[i], lock, PrNumbers(m.stack), segments, j);
  }

  lemma SelectedIsPicked(w: World, entry: Entry, n: nat)
    requires ValidEntry(entry) && Selected(w, entry).Success? && n < |Selected(w, entry).value|
    ensures NamedBy(entry.pick, Selected(w, entry).value[n]) && !NamedBy(entry.skip, Selected(w, entry).value[n])
  {
    var actual := w.heads(entry.source, entry.pr).value;
    SelectionIsFilteredHead(entry, actual);
    KeepNamedElements(actual, entry.pick);
    SelectOnlyPartitions(entry, actual);
    PickedIsNotSkipped(entry, actual, Selected(w, entry).value[n]);
  }

  // --- The review body ------------------------------------------------------------------

  datatype Line = Text(text: string) | Heading(why: string) | Bullet(short: string) | Blank

  /** `cherry[:10]` */
  function Short(sha: string): string {
    if |sha| <= 10 then sha else sha[..10]
  }

  function BulletLines(picked: seq<Picked>): seq<Line> {
    seq(|picked|, i requires 0 <= i < |picked| => Bullet(Short(picked[i].cherry)))
  }

  function Section(e: Entry, picked: seq<Picked>): seq<Line> {
    [Heading(e.why), Blank] + BulletLines(Group(picked, e.pr)) + [Blank]
  }

  function Sections(stack: seq<Entry>, picked: seq<Picked>): seq<Line> {
    if stack == [] then [] else Section(stack[0], picked) + Sections(stack[1..], picked)
  }

  const FOOTER := "Generated from the release manifest. Edit the manifest, not this "
                  + "branch \U{2014} the branch is rebuilt from it."

  function Body(m: Manifest, lock: Lock): seq<Line> {
    [Text("Stack for `" + m.tag + "`, built on `" + m.base + "`."), Blank,
     Text("Version stamp: `" + lock.versionStamp + "`"), Blank]
    + Sections(m.stack, lock.picked) + [Text(FOOTER)]
  }

  lemma {:induction false} SectionsSnoc(stack: seq<Entry>, e: Entry, picked: seq<Picked>)
    ensures Sections(stack + [e], picked) == Sections(stack, picked) + Section(e, picked)
    decreases |stack|
  {
    if stack == [] {
      assert (stack + [e])[1..] == [];
    } else {
      SectionsSnoc(stack[1..], e, picked);
      assert (stack + [e])[1..] == stack[1..] + [e];
    }
  }

  /** The inner loop: one bullet per pick of the entry. */
  method AppendBullets(lines: seq<Line>, picked: seq<Picked>) returns (r: seq<Line>)
    ensures r == lines + BulletLines(picked)
  {
    r := lines;
    var j := 0;
    while j < |picked|
      invariant 0 <= j <= |picked|
      invariant r == lines + BulletLines(picked)[..j]
    {
      r := r + [Bullet(Short(picked[j].cherry))];
      j := j + 1;
    }
  }

  /** pr_body: appends the lines entry by entry. */
  method PrBody(m: Manifest, lock: Lock) returns (lines: seq<Line>)
    ensures lines == Body(m, lock)
  {
    lines := [Text("Stack for `" + m.tag + "`, built on `" + m.base + "`."), Blank,
              Text("Version stamp: `" + lock.versionStamp + "`"), Blank];
    ghost var intro := lines;
    var i := 0;
    while i < |m.stack|
      invariant 0 <= i <= |m.stack|
      invariant lines == intro + Sections(m.stack[..i], lock.picked)
    {
      ghost var before := lines;
      lines := AppendBullets(lines + [Heading(m.stack[i].why), Blank], Group(lock.picked, m.stack[i].pr));
      lines := lines + [Blank];
      assert lines == before + Section(m.stack[i], lock.picked);
      SectionsSnoc(m.stack[..i], m.stack[i], lock.picked);
      assert m.stack[..i + 1] == m.stack[..i] + [m.stack[i]];
      i := i + 1;
    }
    assert m.stack[..i] == m.stack;
    lines := lines + [Text(FOOTER)];
  }

  /** The commits a body lists, in order. */
  function Listed(lines: seq<Line>): seq<string> {
    if lines == [] then []
    else (if lines[0].Bullet? then [lines[0].short] else []) + Listed(lines[1..])
  }

  function Shorts(picked: seq<Picked>): seq<string> {
    seq(|picked|, i requires 0 <= i < |picked| => Short(picked[i].cherry))
  }

  lemma {:induction false} ListedConcat(a: seq<Line>, b: seq<Line>)
    ensures Listed(a + b) == Listed(a) + Listed(b)
  {
    if a == [] {
      assert a + b == b;
    } else {
      assert (a + b)[1..] == a[1..] + b;
      ListedConcat(a[1..], b);
    }
  }

  lemma {:induction false} ListedBullets(picked: seq<Picked>)
    ensures Listed(BulletLines(picked)) == Shorts(picked)
  {
    if picked != [] {
      assert BulletLines(picked)[1..] == BulletLines(picked[1..]);
      ListedBullets(picked[1..]);
    }
  }

  lemma ListedSection(why: string, group: seq<Picked>)
    ensures Listed([Heading(why), Blank] + BulletLines(group) + [Blank]) == Shorts(group)
  {
    var head := [Heading(why), Blank];
    ListedConcat(head + BulletLines(group), [Blank]);
    ListedConcat(head, BulletLines(group));
    ListedNone(head);
    ListedNone([Blank]);
    ListedBullets(group);
  }

  lemma ShortsConcat(a: seq<Picked>, b: seq<Picked>)
    ensures Shorts(a + b) == Shorts(a) + Shorts(b)
  {
  }

  lemma {:induction false} ListedSections(stack: seq<Entry>, picked: seq<Picked>)
    ensures Listed(Sections(stack, picked)) == Shorts(Flatten(Groups(picked, PrNumbers(stack))))
    decreases |stack|
  {
    if stack != [] {
      var group := Group(picked, stack[0].pr);
      ListedConcat(Section(stack[0], picked), Sections(stack[1..], picked));
      ListedSection(stack[0].why, group);
      ListedSections(stack[1..], picked);
      var groups := Groups(picked, PrNumbers(stack));
      assert groups[0] == group && groups[1..] == Groups(picked, PrNumbers(stack[1..]));
      ShortsConcat(group, Flatten(groups[1..]));
    }
  }

  /** The body lists the recorded cherries in order, each exactly once, exactly when the pull
      request numbers are distinct. */
  lemma BodyListsStackIffDistinct(w: World, m: Manifest, fork: string)
    requires ValidManifest(m) && Build(w, m, fork).Success?
    ensures var lock := Build(w, m, fork).value;
            Listed(Body(m, lock)) == Shorts(lock.picked) <==> Distinct(PrNumbers(m.stack))
  {
    var lock := Build(w, m, fork).value;
    var intro := [Text("Stack for `" + m.tag + "`, built on `" + m.base + "`."), Blank,
                  Text("Version stamp: `" + lock.versionStamp + "`"), Blank];
    var sections := Sections(m.stack, lock.picked);
    ListedConcat(intro + sections, [Text(FOOTER)]);
    ListedConcat(intro, sections);
    ListedNone(intro);
    ListedNone([Text(FOOTER)]);
    ListedSections(m.stack, lock.picked);
    var segments := LockIsSegments(w, m, fork);
    SegmentsAreTagged(w, m.stack, segments);
    GroupsConserveIffDistinct(PrNumbers(m.stack), segments);
  }

  lemma {:induction false} ListedNone(lines: seq<Line>)
    requires forall l | l in lines :: !l.Bullet?
    ensures Listed(lines) == []
  {
    if lines != [] {
      assert lines[0] in lines;
      ListedNone(lines[1..]);
    }
  }

  /** A rendered section: its heading and the commits under it. */
  datatype Part = Part(why: string, commits: seq<string>)

  /** A heading begins a part, a bullet belongs to the last one. */
  function Extended(parts: seq<Part>, l: Line): seq<Part> {
    match l
    case Heading(why) => parts + [Part(why, [])]
    case Bullet(short) =>
      if parts == [] then []
      else parts[..|parts| - 1] + [Part(parts[|parts| - 1].why, parts[|parts| - 1].commits + [short])]
    case _ => parts
  }

  /** Reads a body back. */
  function ReadBack(lines: seq<Line>): seq<Part> {
    if lines == [] then [] else Extended(ReadBack(lines[..|lines| - 1]), lines[|lines| - 1])
  }

  function Parts(stack: seq<Entry>, picked: seq<Picked>): seq<Part> {
    seq(|stack|, i requires 0 <= i < |stack| => Part(stack[i].why, Shorts(Group(picked, stack[i].pr))))
  }

  lemma ReadBackSnoc(lines: seq<Line>, l: Line)
    ensures ReadBack(lines + [l]) == Extended(ReadBack(lines), l)
  {
    assert (lines + [l])[..|lines|] == lines;
  }

  lemma ExtendLast(before: seq<Part>, why: string, commits: seq<string>, short: string)
    ensures Extended(before + [Part(why, commits)], Bullet(short)) == before + [Part(why, commits + [short])]
  {
    assert (before + [Part(why, commits)])[..|before|] == before;
  }

  lemma BulletsSnoc(lines: seq<Line>, picked: seq<Picked>)
    requires picked != []
    ensures var n := |picked| - 1;
            && lines + BulletLines(picked) == (lines + BulletLines(picked[..n])) + [Bullet(Short(picked[n].cherry))]
            && Shorts(picked) == Shorts(picked[..n]) + [Short(picked[n].cherry)]
  {
  }

  /** Bullets after a heading are its commits. */
  lemma {:induction false} ReadBullets(lines: seq<Line>, before: seq<Part>, why: string, picked: seq<Picked>)
    requires ReadBack(lines) == before + [Part(why, [])]
    ensures ReadBack(lines + BulletLines(picked)) == before + [Part(why, Shorts(picked))]
    decreases |picked|
  {
    if picked == [] {
      assert lines + BulletLines(picked) == lines && Shorts(picked) == [];
    } else {
      var n := |picked| - 1;
      ReadBullets(lines, before, why, picked[..n]);
      BulletsSnoc(lines, picked);
      ReadBackSnoc(lines + BulletLines(picked[..n]), Bullet(Short(picked[n].cherry)));
      ExtendLast(before, why, Shorts(picked[..n]), Short(picked[n].cherry));
    }
  }

  lemma ReadHeading(lines: seq<Line>, why: string)
    ensures ReadBack(lines + [Heading(why), Blank]) == ReadBack(lines) + [Part(why, [])]
  {
    ReadBackSnoc(lines, Heading(why));
    ReadBackSnoc(lines + [Heading(why)], Blank);
    assert lines + [Heading(why), Blank] == (lines + [Heading(why)]) + [Blank];
  }

  lemma SectionSplits(lines: seq<Line>, head: seq<Line>, bullets: seq<Line>)
    ensures lines + (head + bullets + [Blank]) == ((lines + head) + bullets) + [Blank]
  {
  }

  lemma ReadSection(lines: seq<Line>, e: Entry, picked: seq<Picked>)
    ensures ReadBack(lines + Section(e, picked)) ==
            ReadBack(lines) + [Part(e.why, Shorts(Group(picked, e.pr)))]
  {
    var group := Group(picked, e.pr);
    var head := [Heading(e.why), Blank];
    ReadHeading(lines, e.why);
    ReadBullets(lines + head, ReadBack(lines), e.why, group);
    SectionSplits(lines, head, BulletLines(group));
    ReadBackSnoc((lines + head) + BulletLines(group), Blank);
  }

  lemma SectionsEnd(lines: seq<Line>, stack: seq<Entry>, e: Entry, picked: seq<Picked>)
    ensures lines + Sections(stack + [e], picked) == (lines + Sections(stack, picked)) + Section(e, picked)
    ensures Parts(stack + [e], picked) == Parts(stack, picked) + [Part(e.why, Shorts(Group(picked, e.pr)))]
  {
    SectionsSnoc(stack, e, picked);
    Regroup(lines, Sections(stack, picked), Section(e, picked));
  }

  lemma {:induction false} ReadSections(lines: seq<Line>, stack: seq<Entry>, picked: seq<Picked>)
    ensures ReadBack(lines + Sections(stack, picked)) == ReadBack(lines) + Parts(stack, picked)
    decreases |stack|
  {
    if stack == [] {
      assert lines + Sections(stack, picked) == lines && Parts(stack, picked) == [];
    } else {
      var front, e := stack[..|stack| - 1], stack[|stack| - 1];
      assert stack == front + [e];
      ReadSections(lines, front, picked);
      SectionsEnd(lines, front, e, picked);
      ReadSection(lines + Sections(front, picked), e, picked);
      Regroup(ReadBack(lines), Parts(front, picked), [Part(e.why, Shorts(Group(picked, e.pr)))]);
    }
  }

  lemma ReadNoParts(lines: seq<Line>)
    requires forall l | l in lines :: l.Text? || l.Blank?
    ensures ReadBack(lines) == []
  {
    if lines != [] {
      assert lines[|lines| - 1] in lines;
      ReadNoParts(lines[..|lines| - 1]);
    }
  }

  /** What is shown of a commit: its first ten characters, or all of it. */
  lemma ShortIsPrefix(sha: string)
    ensures Short(sha) <= sha && |Short(sha)| == if |sha| < 10 then |sha| else 10
  {
  }

  /** The body read back: one part per entry in stack order, under the entry's own reason, with
      the commits recorded for its number; before them the tag, the base and the version stamp,
      after them one closing line. */
  lemma BodyReadsBack(m: Manifest, lock: Lock)
    ensures ReadBack(Body(m, lock)) == Parts(m.stack, lock.picked)
    ensures var body := Body(m, lock);
            && |body| >= 5 && body[|body| - 1].Text?
            && body[0] == Text("Stack for `" + m.tag + "`, built on `" + m.base + "`.")
            && body[2] == Text("Version stamp: `" + lock.versionStamp + "`")
  {
    var intro := [Text("Stack for `" + m.tag + "`, built on `" + m.base + "`."), Blank,
                  Text("Version stamp: `" + lock.versionStamp + "`"), Blank];
    ReadNoParts(intro);
    ReadSections(intro, m.stack, lock.picked);
    ReadBackSnoc(intro + Sections(m.stack, lock.picked), Text(FOOTER));
    assert [] + Parts(m.stack, lock.picked) == Parts(m.stack, lock.picked);
  }

  /** Same text, same cherries, and the same grouping under possibly different pull request
      numbers, sources, upstream and applied commits. */
  predicate SameShape(m: Manifest, lock: Lock, n: Manifest, lock': Lock) {
    && m.tag == n.tag && m.base == n.base && lock.versionStamp == lock'.versionStamp
    && |m.stack| == |n.stack| && |lock.picked| == |lock'.picked|
    && (forall i | 0 <= i < |m.stack| :: m.stack[i].why == n.stack[i].why)
    && (forall k | 0 <= k < |lock.picked| :: lock.picked[k].cherry == lock'.picked[k].cherry)
    && (forall i, k | 0 <= i < |m.stack| && 0 <= k < |lock.picked| ::
          lock.picked[k].pr == m.stack[i].pr <==> lock'.picked[k].pr == n.stack[i].pr)
  }

  /** Nothing upstream reaches the body: replacing every pull request number, source,
      upstream and applied commit leaves it unchanged. */
  lemma BodyCarriesNothingUpstream(m: Manifest, lock: Lock, n: Manifest, lock': Lock)
    requires SameShape(m, lock, n, lock')
    ensures Body(m, lock) == Body(n, lock')
  {
    SectionsSameShape(m.stack, lock.picked, n.stack, lock'.picked);
  }

  lemma {:induction false} SectionsSameShape(es: seq<Entry>, ps: seq<Picked>, fs: seq<Entry>, qs: seq<Picked>)
    requires |es| == |fs| && |ps| == |qs|
    requires forall i | 0 <= i < |es| :: es[i].why == fs[i].why
    requires forall k | 0 <= k < |ps| :: ps[k].cherry == qs[k].cherry
    requires forall i, k | 0 <= i < |es| && 0 <= k < |ps| :: ps[k].pr == es[i].pr <==> qs[k].pr == fs[i].pr
    ensures Sections(es, ps) == Sections(fs, qs)
    decreases |es|
  {
    if es != [] {
      BulletsSameShape(ps, es[0].pr, qs, fs[0].pr);
      SectionsSameShape(es[1..], ps, fs[1..], qs);
    }
  }

  lemma {:induction false} BulletsSameShape(ps: seq<Picked>, a: int, qs: seq<Picked>, b: int)
    requires |ps| == |qs|
    requires forall k | 0 <= k < |ps| :: ps[k].cherry == qs[k].cherry
    requires forall k | 0 <= k < |ps| :: ps[k].pr == a <==> qs[k].pr == b
    ensures BulletLines(Group(ps, a)) == BulletLines(Group(qs, b))
    decreases |ps|
  {
    if ps != [] {
      BulletsSameShape(ps[1..], a, qs[1..], b);
      var g, h := Group(ps[1..], a), Group(qs[1..], b);
      assert |BulletLines(g)| == |BulletLines(h)|;
      forall k | 0 <= k < |g| ensures Short(g[k].cherry) == Short(h[k].cherry) {
        assert BulletLines(g)[k] == BulletLines(h)[k];
      }
    }
  }
}
