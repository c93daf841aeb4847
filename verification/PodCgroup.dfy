/** The pod cgroup annotation (changes/runsc_service.go:763-795), on strings: splitting at the
    separator, lexical path cleaning with `.` and `..`, and the backward search. */
module PodCgroup {
  import opened Wrappers

  const SEPARATOR := '/'
  const CGROUP_PARENT := "dev.gvisor.spec.cgroup-parent"

  predicate NoSeparator(c: string) {
    SEPARATOR !in c
  }

  predicate Components(parts: seq<string>) {
    forall i | 0 <= i < |parts| :: NoSeparator(parts[i])
  }

  /** strings.Split at the separator: one component more than there are separators. */
  function Split(s: string): (parts: seq<string>)
    ensures parts != [] && Components(parts)
  {
    if s == "" then [""]
    else
      var rest := Split(s[1..]);
      if s[0] == SEPARATOR then [""] + rest else [[s[0]] + rest[0]] + rest[1..]
  }

  function Glue(parts: seq<string>): string {
    if parts == [] then ""
    else if |parts| == 1 then parts[0]
    else parts[0] + [SEPARATOR] + Glue(parts[1..])
  }

  /** One component of lexical cleaning; only a rooted path swallows a `..` at the top. */
  function Push(stack: seq<string>, c: string, rooted: bool): seq<string> {
    if c == "" || c == "." then stack
    else if c == ".." && stack != [] && stack[|stack| - 1] != ".." then stack[..|stack| - 1]
    else if c == ".." && rooted then stack
    else stack + [c]
  }

  function Normal(parts: seq<string>, rooted: bool): seq<string> {
    if parts == [] then []
    else Push(Normal(parts[..|parts| - 1], rooted), parts[|parts| - 1], rooted)
  }

  predicate IsAbs(s: string) {
    s != "" && s[0] == SEPARATOR
  }

  function Shown(stack: seq<string>): string {
    if stack == [] then "." else Glue(stack)
  }

  /** filepath.Clean. */
  function Clean(s: string): string {
    var stack := Normal(Split(s), IsAbs(s));
    if IsAbs(s) then [SEPARATOR] + Glue(stack) else Shown(stack)
  }

  /** filepath.Join of two elements: empty ones are ignored. */
  function Join(path: string, c: string): string {
    if path != "" then Clean(path + [SEPARATOR] + c) else if c != "" then Clean(c) else ""
  }

  predicate IsPod(c: string) {
    "pod" <= c
  }

  predicate NoPod(parts: seq<string>) {
    forall i | 0 <= i < |parts| :: !IsPod(parts[i])
  }

  /** The components up to and including the last that starts with `pod`. */
  function PodCut(parts: seq<string>): (cut: Option<seq<string>>)
    ensures cut.None? <==> NoPod(parts)
    ensures cut.Some? ==>
      && cut.value <= parts && cut.value != [] && IsPod(cut.value[|cut.value| - 1])
      && NoPod(parts[|cut.value|..])
  {
    if parts == [] then None
    else if IsPod(parts[|parts| - 1]) then Some(parts)
    else
      var cut := PodCut(parts[..|parts| - 1]);
      assert cut.Some? ==> parts[|cut.value|..] == parts[..|parts| - 1][|cut.value|..] + [parts[|parts| - 1]];
      assert parts == parts[..|parts| - 1] + [parts[|parts| - 1]];
      cut
  }

  /** The pod's cgroup: the cut, normalised as a relative path, with the leading separator of
      `path` put back. */
  function PodPath(path: string): Option<string> {
    match PodCut(Split(path))
    case None => None
    case Some(cut) => Some(if IsAbs(path) then [SEPARATOR] + Glue(Normal(cut, false)) else Glue(Normal(cut, false)))
  }

  // --- Splitting and gluing -------------------------------------------------------------

  lemma {:induction false} SplitOfComponent(c: string)
    requires NoSeparator(c)
    ensures Split(c) == [c]
    decreases |c|
  {
    if c != "" {
      assert c[0] in c && forall x | x in c[1..] :: x in c;
      SplitOfComponent(c[1..]);
      assert [c[0]] + c[1..] == c;
    }
  }

  lemma {:induction false} SplitAtSeparator(a: string, b: string)
    ensures Split(a + [SEPARATOR] + b) == Split(a) + Split(b)
    decreases |a|
  {
    var s := a + [SEPARATOR] + b;
    if a == "" {
      assert s[1..] == b;
    } else {
      SplitAtSeparator(a[1..], b);
      assert s[1..] == a[1..] + [SEPARATOR] + b;
      Regroup(a[0], Split(a[1..]), Split(b));
    }
  }

  lemma Regroup(x: char, p: seq<string>, q: seq<string>)
    requires p != []
    ensures [""] + (p + q) == ([""] + p) + q
    ensures [[x] + (p + q)[0]] + (p + q)[1..] == ([[x] + p[0]] + p[1..]) + q
  {
    assert (p + q)[1..] == p[1..] + q;
  }

  lemma {:induction false} SplitOfGlue(parts: seq<string>)
    requires Components(parts) && parts != []
    ensures Split(Glue(parts)) == parts
    decreases |parts|
  {
    SplitOfComponent(parts[0]);
    if |parts| > 1 {
      SplitOfGlue(parts[1..]);
      SplitAtSeparator(parts[0], Glue(parts[1..]));
      assert parts == [parts[0]] + parts[1..];
    }
  }

  lemma GlueFront(c: string, rest: seq<string>, x: char)
    ensures rest != [] ==> Glue([c] + rest) == c + [SEPARATOR] + Glue(rest)
    ensures Glue([[x] + c] + rest) == [x] + Glue([c] + rest)
  {
    var longer := [x] + c;
    assert ([c] + rest)[1..] == rest && ([longer] + rest)[1..] == rest;
    if rest != [] {
      assert longer + [SEPARATOR] + Glue(rest) == [x] + (c + [SEPARATOR] + Glue(rest));
    }
  }

  lemma {:induction false} GlueOfSplit(s: string)
    ensures Glue(Split(s)) == s
    decreases |s|
  {
    if s != "" {
      var rest := Split(s[1..]);
      GlueOfSplit(s[1..]);
      assert rest == [rest[0]] + rest[1..];
      GlueFront("", rest, s[0]);
      GlueFront(rest[0], rest[1..], s[0]);
    }
  }

  // --- Normal forms ---------------------------------------------------------------------

  /** A run of `..` and then proper names. */
  predicate IsNormal(stack: seq<string>) {
    && Components(stack)
    && (forall i | 0 <= i < |stack| :: stack[i] != "" && stack[i] != ".")
    && (forall i, j | 0 <= i < j < |stack| && stack[j] == ".." :: stack[i] == "..")
  }

  lemma {:induction false} NormalIsNormal(parts: seq<string>, rooted: bool)
    requires Components(parts)
    ensures IsNormal(Normal(parts, rooted))
    decreases |parts|
  {
    if parts != [] {
      NormalIsNormal(parts[..|parts| - 1], rooted);
    }
  }

  lemma {:induction false} NormalOfNormal(stack: seq<string>)
    requires IsNormal(stack)
    ensures Normal(stack, false) == stack
    decreases |stack|
  {
    if stack != [] {
      var init := stack[..|stack| - 1];
      NormalOfNormal(init);
      assert stack == init + [stack[|stack| - 1]];
    }
  }

  lemma NormalSnoc(parts: seq<string>, c: string, rooted: bool)
    ensures Normal(parts + [c], rooted) == Push(Normal(parts, rooted), c, rooted)
  {
    assert (parts + [c])[..|parts|] == parts;
  }

  predicate AllEmpty(parts: seq<string>) {
    forall i | 0 <= i < |parts| :: parts[i] == ""
  }

  /** What the joining loop holds after some components: nothing while all were empty. */
  function Joined(parts: seq<string>): string {
    var stack := Normal(parts, false);
    if AllEmpty(parts) then "" else Shown(stack)
  }

  lemma {:induction false} EmptyComponents(parts: seq<string>, rooted: bool)
    requires AllEmpty(parts)
    ensures Normal(parts, rooted) == []
    decreases |parts|
  {
    if parts != [] {
      EmptyComponents(parts[..|parts| - 1], rooted);
    }
  }

  lemma GlueStart(stack: seq<string>)
    requires IsNormal(stack) && stack != []
    ensures Glue(stack) != "" && !IsAbs(Glue(stack))
  {
    assert Glue(stack)[0] == stack[0][0] && stack[0][0] in stack[0];
  }

  /** Joining one more component onto what earlier ones gave normalises them together. */
  lemma JoinStep(parts: seq<string>, c: string)
    requires Components(parts) && NoSeparator(c)
    ensures Join(Joined(parts), c) == Joined(parts + [c])
  {
    if AllEmpty(parts) {
      EmptyComponents(parts, false);
      JoinFirst(parts, c);
    } else {
      NormalIsNormal(parts, false);
      JoinLater(Normal(parts, false), c);
      NormalSnoc(parts, c, false);
    }
  }

  lemma JoinLater(stack: seq<string>, c: string)
    requires IsNormal(stack) && NoSeparator(c)
    ensures Join(Shown(stack), c) == Shown(Push(stack, c, false))
  {
    var path := Shown(stack);
    SplitAtSeparator(path, c);
    SplitOfComponent(c);
    NormalSnoc(Split(path), c, false);
    if stack == [] {
      SplitOfComponent(".");
      NormalSnoc([], ".", false);
      assert [] + ["."] == ["."];
    } else {
      SplitOfGlue(stack);
      NormalOfNormal(stack);
      GlueStart(stack);
    }
    assert !IsAbs(path + [SEPARATOR] + c);
  }

  lemma JoinFirst(parts: seq<string>, c: string)
    requires AllEmpty(parts) && Normal(parts, false) == [] && NoSeparator(c)
    ensures Join("", c) == Joined(parts + [c])
  {
    NormalSnoc(parts, c, false);
    if c != "" {
      SplitOfComponent(c);
      NormalSnoc([], c, false);
      assert [] + [c] == [c] && c[0] in c && (parts + [c])[|parts|] == c;
    }
  }

  /** A cut ends in a pod component, so it survives joining and normalising. */
  lemma PodSurvives(cut: seq<string>)
    requires cut != [] && Components(cut) && IsPod(cut[|cut| - 1])
    ensures var stack := Normal(cut, false);
            stack != [] && IsPod(stack[|stack| - 1]) && Joined(cut) == Glue(stack)
  {
    var c := cut[|cut| - 1];
    assert c[0] == 'p';
    assert c != "" && c != "." && c != "..";
  }

  /** The first pod component met from the back decides. */
  lemma FoundAt(path: string, i: nat)
    requires i < |Split(path)| && PodCut(Split(path)) == Some(Split(path)[..i + 1])
    ensures var pod := Joined(Split(path)[..i + 1]);
            PodPath(path) == Some(if IsAbs(path) then [SEPARATOR] + pod else pod)
  {
    PodSurvives(Split(path)[..i + 1]);
  }

  // --- The annotation ---------------------------------------------------------------------

  /** The parts of the OCI spec involved: `linux` is the cgroups path when there is a Linux
      section. */
  datatype SpecValue = SpecValue(sandbox: bool, linux: Option<string>, annotations: Option<map<string, string>>)

  /** The pod path to record, if it differs from the container's own. */
  function Target(v: SpecValue): Option<string> {
    if !v.sandbox || v.linux.None? || v.linux.value == "" then None
    else
      var pod := PodPath(v.linux.value);
      if pod == Some(v.linux.value) then None else pod
  }

  function Annotated(v: SpecValue): SpecValue {
    match Target(v)
    case None => v
    case Some(pod) =>
      v.(annotations := Some((if v.annotations.None? then map[] else v.annotations.value)[CGROUP_PARENT := pod]))
  }

  /** The whole effect on a spec. When it is a sandbox's and its cgroups path has a pod path that
      is another, that pod path is put under the one key; every other annotation keeps its value,
      none is added, and the rest of the spec stays. Otherwise nothing changes. */
  lemma AnnotationIsAdded(v: SpecValue)
    ensures var w := Annotated(v);
            var was := if v.annotations.Some? then v.annotations.value else map[];
            && w.sandbox == v.sandbox && w.linux == v.linux
            && if v.sandbox && v.linux.Some? && v.linux.value != "" && PodPath(v.linux.value) !in {None, v.linux} then
                 && w.annotations.Some?
                 && w.annotations.value.Keys == was.Keys + {"dev.gvisor.spec.cgroup-parent"}
                 && Some(w.annotations.value["dev.gvisor.spec.cgroup-parent"]) == PodPath(v.linux.value)
                 && forall k | k in was && k != "dev.gvisor.spec.cgroup-parent" :: w.annotations.value[k] == was[k]
               else w.annotations == v.annotations
    ensures Target(v).Some? <==>
              v.sandbox && v.linux.Some? && v.linux.value != "" && PodPath(v.linux.value) !in {None, v.linux}
  {
  }

  /** The inner loop: joins the first `n` components. */
  method JoinFront(parts: seq<string>, n: nat) returns (joined: string)
    requires Components(parts) && n <= |parts|
    ensures joined == Joined(parts[..n])
  {
    joined := "";
    for j := 0 to n
      invariant joined == Joined(parts[..j])
    {
      JoinStep(parts[..j], parts[j]);
      assert parts[..j + 1] == parts[..j] + [parts[j]];
      joined := Join(joined, parts[j]);
    }
  }

  lemma PodCutSkips(parts: seq<string>, i: nat)
    requires i < |parts| && !IsPod(parts[i])
    ensures PodCut(parts[..i + 1]) == PodCut(parts[..i])
  {
    assert parts[..i + 1][..i] == parts[..i];
  }

  /** The outer loop: backwards to the last pod component. */
  method LastPod(parts: seq<string>) returns (i: int)
    ensures -1 <= i < |parts|
    ensures PodCut(parts) == if i == -1 then None else Some(parts[..i + 1])
  {
    i := |parts| - 1;
    assert parts[..i + 1] == parts;
    while i >= 0
      invariant -1 <= i < |parts|
      invariant PodCut(parts) == PodCut(parts[..i + 1])
      decreases i
    {
      if IsPod(parts[i]) { return; }
      PodCutSkips(parts, i);
      i := i - 1;
    }
  }

  /** What the search and the joining come to. */
  method FindPod(path: string) returns (pod: Option<string>)
    ensures pod == PodPath(path)
  {
    var parts := Split(path);
    var i := LastPod(parts);
    if i < 0 { return None; }
    var joined := JoinFront(parts, i + 1);
    FoundAt(path, i);
    if IsAbs(path) {
      joined := [SEPARATOR] + joined;
    }
    return Some(joined);
  }

  class Spec {
    var sandbox: bool
    var linux: Option<string>
    var annotations: Option<map<string, string>>

    ghost function Value(): SpecValue
      reads this
    {
      SpecValue(sandbox, linux, annotations)
    }

    method SetPodCgroup() returns (updated: bool)
      modifies this`annotations
      ensures Value() == Annotated(old(Value()))
      ensures updated == Target(old(Value())).Some?
    {
      if !sandbox || linux.None? || linux.value == "" {
        return false;
      }
      var pod := FindPod(linux.value);
      if pod.None? || linux.value == pod.value {
        return false;
      }
      if annotations.None? {
        annotations := Some(map[]);
      }
      annotations := Some(annotations.value[CGROUP_PARENT := pod.value]);
      return true;
    }
  }

  /** Whatever follows the last pod component, as long as it holds none itself, is ignored. */
  lemma SuffixIsIgnored(path: string, suffix: string)
    requires path != "" && PodPath(path).Some? && PodPath(suffix).None?
    ensures PodPath(path + [SEPARATOR] + suffix) == PodPath(path)
  {
    SplitAtSeparator(path, suffix);
    CutIgnores(Split(path), Split(suffix));
  }

  lemma {:induction false} CutIgnores(parts: seq<string>, more: seq<string>)
    requires PodCut(parts).Some? && NoPod(more)
    ensures PodCut(parts + more) == PodCut(parts)
    decreases |more|
  {
    if more == [] {
      assert parts + more == parts;
    } else {
      assert (parts + more)[..|parts + more| - 1] == parts + more[..|more| - 1];
      CutIgnores(parts, more[..|more| - 1]);
    }
  }

  /** The pod path is its own pod path. */
  lemma PodPathIsFixed(path: string)
    requires PodPath(path).Some?
    ensures PodPath(PodPath(path).value) == PodPath(path)
  {
    var cut := PodCut(Split(path)).value;
    PodSurvives(cut);
    NormalIsNormal(cut, false);
    if IsAbs(path) {
      RootedStackIsFixed(Normal(cut, false));
    } else {
      StackIsFixed(Normal(cut, false));
    }
  }

  lemma StackIsFixed(stack: seq<string>)
    requires IsNormal(stack) && stack != [] && IsPod(stack[|stack| - 1])
    ensures PodPath(Glue(stack)) == Some(Glue(stack))
  {
    SplitOfGlue(stack);
    NormalOfNormal(stack);
    GlueStart(stack);
  }

  lemma RootedStackIsFixed(stack: seq<string>)
    requires IsNormal(stack) && stack != [] && IsPod(stack[|stack| - 1])
    ensures PodPath([SEPARATOR] + Glue(stack)) == Some([SEPARATOR] + Glue(stack))
  {
    SplitOfGlue(stack);
    NormalOfNormal(stack);
    DroppedFirst(stack, "");
    assert [SEPARATOR] + Glue(stack) == "" + [SEPARATOR] + Glue(stack);
    SplitAtSeparator("", Glue(stack));
  }

  /** Calling again changes nothing more and reports the same; a spec whose path is already the
      pod's is left alone. */
  lemma SecondCallAgrees(v: SpecValue)
    ensures Annotated(Annotated(v)) == Annotated(v) && Target(Annotated(v)) == Target(v)
    ensures Target(v).Some? ==> Target(v.(linux := Target(v))) == None
  {
    if Target(v).Some? {
      PodPathIsFixed(v.linux.value);
      assert Annotated(v).annotations.value[CGROUP_PARENT := Target(v).value] == Annotated(v).annotations.value;
    }
  }

  // --- Against filepath.Clean -------------------------------------------------------------

  /** Some `..` is met at the top of the path. */
  predicate Climbs(parts: seq<string>) {
    exists k | 0 <= k < |parts| :: parts[k] == ".." && Normal(parts[..k], true) == []
  }

  /** The pod path is the cleaned cut, except that an absolute path whose cut climbs above the
      root keeps the `..` that cleaning would drop. */
  lemma PodPathIsCleanIff(path: string)
    requires PodPath(path).Some?
    ensures var cut := PodCut(Split(path)).value;
            PodPath(path).value == Clean(Glue(cut)) <==> !IsAbs(path) || !Climbs(cut)
  {
    var cut := PodCut(Split(path)).value;
    CleanOfCut(path, cut);
    CleanAgreesIff(cut);
    SameAfter(SEPARATOR, Glue(Normal(cut, false)), Glue(Normal(cut, true)));
  }

  lemma CleanOfCut(path: string, cut: seq<string>)
    requires PodCut(Split(path)) == Some(cut)
    ensures Clean(Glue(cut)) == if IsAbs(path) then [SEPARATOR] + Glue(Normal(cut, true)) else Glue(Normal(cut, false))
  {
    SplitOfGlue(cut);
    PodSurvives(cut);
    CutKeepsRoot(path, cut);
  }

  lemma SameAfter(x: char, a: string, b: string)
    ensures [x] + a == [x] + b <==> a == b
  {
    assert ([x] + a)[1..] == a && ([x] + b)[1..] == b;
  }

  lemma CleanAgreesIff(cut: seq<string>)
    requires Components(cut)
    ensures Glue(Normal(cut, false)) == Glue(Normal(cut, true)) <==> !Climbs(cut)
  {
    var free, rooted := Normal(cut, false), Normal(cut, true);
    var k := RootedDropsClimb(cut);
    NormalIsNormal(cut, false);
    NormalIsNormal(cut, true);
    assert free == rooted <==> k == 0 by {
      assert Ups(0) + rooted == rooted;
      assert k > 0 ==> |free| > |rooted|;
    }
    if Glue(free) == Glue(rooted) { GlueIsInjective(free, rooted); }
  }

  /** In every case, dots or not: the pod path is the cleaned relative form of the cut, with the
      separator in front when the path is absolute. */
  lemma PodPathIsCleanRelative(path: string)
    requires PodPath(path).Some?
    ensures var cut := PodCut(Split(path)).value;
            PodPath(path).value ==
            if IsAbs(path) then [SEPARATOR] + Clean("." + Glue(cut)) else Clean(Glue(cut))
  {
    var cut := PodCut(Split(path)).value;
    CleanOfCut(path, cut);
    if IsAbs(path) { CleanOfRelative(path, cut); }
  }

  lemma SplitDotted(cut: seq<string>)
    requires |cut| > 1 && cut[0] == "" && Components(cut)
    ensures Split("." + Glue(cut)) == ["."] + cut[1..]
  {
    var rest := cut[1..];
    assert "." + Glue(cut) == "." + [SEPARATOR] + Glue(rest);
    SplitAtSeparator(".", Glue(rest));
    SplitOfComponent(".");
    SplitOfGlue(rest);
  }

  lemma NormalDotted(cut: seq<string>)
    requires |cut| > 1 && cut[0] == ""
    ensures Normal(["."] + cut[1..], false) == Normal(cut, false)
  {
    assert cut == [""] + cut[1..];
    DroppedFirst(cut[1..], ".");
    DroppedFirst(cut[1..], "");
  }

  lemma CleanOfRelative(path: string, cut: seq<string>)
    requires PodCut(Split(path)) == Some(cut) && IsAbs(path)
    ensures Clean("." + Glue(cut)) == Glue(Normal(cut, false))
  {
    PodSurvives(cut);
    assert cut[0] == Split(path)[0] == "" && |cut| > 1;
    SplitDotted(cut);
    NormalDotted(cut);
  }

  /** A first component that cleaning drops may as well be absent. */
  lemma {:induction false} DroppedFirst(parts: seq<string>, c: string)
    requires c == "" || c == "."
    ensures Normal([c] + parts, false) == Normal(parts, false)
    decreases |parts|
  {
    if parts == [] {
      assert [c] + parts == [] + [c];
      NormalSnoc([], c, false);
    } else {
      DroppedFirst(parts[..|parts| - 1], c);
      assert ([c] + parts)[..|parts|] == [c] + parts[..|parts| - 1];
    }
  }

  lemma CutKeepsRoot(path: string, cut: seq<string>)
    requires cut != [] && cut <= Split(path) && IsPod(cut[|cut| - 1])
    ensures IsAbs(Glue(cut)) == IsAbs(path)
  {
    assert cut[0] == Split(path)[0];
    if IsAbs(path) {
      assert cut[0] == "" && |cut| > 1;
      assert Glue(cut) == cut[0] + [SEPARATOR] + Glue(cut[1..]);
    } else {
      assert cut[0] == "" ==> path == "";
      assert NoSeparator(cut[0]);
      assert cut[0] != "" ==> cut[0][0] in cut[0] && Glue(cut)[0] == cut[0][0];
    }
  }

  lemma GlueIsInjective(a: seq<string>, b: seq<string>)
    requires IsNormal(a) && IsNormal(b) && Glue(a) == Glue(b)
    ensures a == b
  {
    if a != [] { SplitOfGlue(a); }
    if b != [] { SplitOfGlue(b); }
  }

  function Ups(k: nat): seq<string> {
    if k == 0 then [] else Ups(k - 1) + [".."]
  }

  lemma ClimbsSnoc(parts: seq<string>, c: string)
    ensures Climbs(parts + [c]) <==> Climbs(parts) || (c == ".." && Normal(parts, true) == [])
  {
    var more := parts + [c];
    assert more[..|parts|] == parts;
    assert forall k | 0 <= k < |parts| :: more[..k] == parts[..k] && more[k] == parts[k];
    if c == ".." && Normal(parts, true) == [] { assert more[|parts|] == ".."; }
  }

  /** Without a root the climbing `..` pile up below what the rooted form keeps. */
  lemma {:induction false} RootedDropsClimb(parts: seq<string>) returns (k: nat)
    ensures Normal(parts, false) == Ups(k) + Normal(parts, true)
    ensures ".." !in Normal(parts, true) && (k > 0 <==> Climbs(parts))
    decreases |parts|
  {
    if parts == [] {
      k := 0;
    } else {
      var init, c := parts[..|parts| - 1], parts[|parts| - 1];
      k := RootedDropsClimb(init);
      assert parts == init + [c];
      ClimbsSnoc(init, c);
      k := PushClimbing(Normal(init, true), c, k);
    }
  }

  lemma PushClimbing(stack: seq<string>, c: string, k: nat) returns (more: nat)
    requires ".." !in stack
    ensures Push(Ups(k) + stack, c, false) == Ups(more) + Push(stack, c, true)
    ensures ".." !in Push(stack, c, true)
    ensures more == if c == ".." && stack == [] then k + 1 else k
  {
    more := if c == ".." && stack == [] then k + 1 else k;
    var free := Ups(k) + stack;
    if stack != [] {
      assert free[|free| - 1] == stack[|stack| - 1] && stack[|stack| - 1] in stack;
      assert free[..|free| - 1] == Ups(k) + stack[..|stack| - 1];
    } else {
      assert free == Ups(k) && Ups(k + 1) + [] == Ups(k + 1);
    }
    assert free + [c] == Ups(k) + (stack + [c]);
  }
}
