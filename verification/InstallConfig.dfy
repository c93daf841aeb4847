/** The rewrite of the containerd configuration text (scripts/install.sh:26-47). */
module InstallConfig {
  import opened Wrappers

  // --- Searching and replacing ------------------------------------------------------------

  /** `t` stands in `s` at position `k`. */
  predicate At(s: string, t: string, k: nat) {
    k + |t| <= |s| && s[k..k + |t|] == t
  }

  ghost predicate Occurs(s: string, t: string) {
    exists k :: At(s, t, k)
  }

  /** The first occurrence at or after `i`. */
  function FindFrom(s: string, t: string, i: nat): (at: Option<nat>)
    requires i <= |s|
    ensures at.Some? ==> i <= at.value && At(s, t, at.value) && forall k | i <= k < at.value :: !At(s, t, k)
    ensures at.None? ==> forall k | i <= k :: !At(s, t, k)
    decreases |s| - i
  {
    if At(s, t, i) then Some(i) else if i == |s| then None else FindFrom(s, t, i + 1)
  }

  function Find(s: string, t: string): (at: Option<nat>)
    ensures at.Some? <==> Occurs(s, t)
  {
    FindFrom(s, t, 0)
  }

  /** str.replace: every occurrence, from the left, without overlap. */
  function ReplaceAll(s: string, from: string, to: string): string
    requires from != ""
    decreases |s|
  {
    var at := Find(s, from);
    if at.None? then s else s[..at.value] + (to + ReplaceAll(s[at.value + |from|..], from, to))
  }

  /** str.replace with a count of one. */
  function ReplaceFirst(s: string, from: string, to: string): string {
    var at := Find(s, from);
    if at.None? then s else s[..at.value] + (to + s[at.value + |from|..])
  }

  lemma AtConcat(a: string, b: string, t: string, k: nat)
    ensures k + |t| <= |a| ==> (At(a + b, t, k) <==> At(a, t, k))
    ensures k >= |a| ==> (At(a + b, t, k) <==> At(b, t, k - |a|))
  {
    if k + |t| <= |a| {
      assert (a + b)[k..k + |t|] == a[k..k + |t|];
    }
    if |a| <= k && k + |t| <= |a| + |b| {
      assert (a + b)[k..k + |t|] == b[k - |a|..k - |a| + |t|];
    }
  }

  lemma OccursInMiddle(a: string, m: string, b: string, t: string)
    requires Occurs(m, t)
    ensures Occurs(a + (m + b), t)
  {
    var k :| At(m, t, k);
    AtConcat(m, b, t, k);
    AtConcat(a, m + b, t, |a| + k);
    assert At(a + (m + b), t, |a| + k);
  }

  lemma OccursInTail(s: string, i: nat, t: string)
    requires i <= |s| && Occurs(s[i..], t)
    ensures Occurs(s, t)
  {
    OccursInMiddle(s[..i], s[i..], "", t);
    assert s[..i] + (s[i..] + "") == s;
  }

  /** The first character is met nowhere else in the string. */
  predicate Headed(t: string) {
    t != "" && forall k | 0 < k < |t| :: t[k] != t[0]
  }

  /** Strings that begin with the same character, differ somewhere within both, and do not
      repeat that character: neither can overlap the other. */
  predicate Apart(t: string, u: string) {
    && Headed(t) && Headed(u) && t[0] == u[0]
    && exists p | 0 <= p < |t| && p < |u| :: t[p] != u[p]
  }

  lemma OnlyAtHead(s: string, t: string, k: nat)
    requires Headed(t) && At(s, t, k)
    ensures forall p | k <= p < k + |t| && s[p] == t[0] :: p == k
  {
    forall p | k <= p < k + |t| && s[p] == t[0] ensures p == k {
      assert s[k..k + |t|][p - k] == s[p];
    }
  }

  lemma NotAtHead(m: string, b: string, t: string)
    requires Apart(t, m)
    ensures !At(m + b, t, 0)
  {
    var p :| 0 <= p < |t| && p < |m| && t[p] != m[p];
    assert |t| <= |m + b| ==> (m + b)[0..|t|][p] == m[p];
  }

  /** An occurrence in a text with `m` in the middle lies in one of the outer parts. */
  lemma OccurrenceAvoids(a: string, m: string, b: string, t: string, k: nat)
    requires Apart(t, m) && At(a + (m + b), t, k)
    ensures k + |t| <= |a| || k >= |a| + |m|
  {
    var s := a + (m + b);
    assert At(s, m, |a|) by { assert s[|a|..|a| + |m|] == m; }
    assert s[|a|] == t[0];
    assert s[k] == m[0] by { assert s[k..k + |t|][0] == s[k]; }
    OnlyAtHead(s, t, k);
    OnlyAtHead(s, m, |a|);
    AtConcat(a, m + b, t, k);
    NotAtHead(m, b, t);
  }

  /** Nothing is left to replace. */
  lemma {:induction false} NoneLeft(s: string, from: string, to: string)
    requires Apart(from, to)
    ensures !Occurs(ReplaceAll(s, from, to), from)
    decreases |s|
  {
    var at := Find(s, from);
    if at.Some? {
      var i := at.value;
      NoneLeft(s[i + |from|..], from, to);
      NoneInParts(s, i, to, ReplaceAll(s[i + |from|..], from, to), from);
    }
  }

  lemma NoneInParts(s: string, i: nat, m: string, rest: string, t: string)
    requires i <= |s| && Apart(t, m) && (forall k | 0 <= k < i :: !At(s, t, k)) && !Occurs(rest, t)
    ensures !Occurs(s[..i] + (m + rest), t)
  {
    forall k: nat
      ensures !At(s[..i] + (m + rest), t, k)
    {
      if At(s[..i] + (m + rest), t, k) { OccurrenceElsewhere(s, i, m, rest, t, k); }
    }
  }

  lemma OccurrenceElsewhere(s: string, i: nat, m: string, rest: string, t: string, k: nat)
    requires i <= |s| && Apart(t, m) && At(s[..i] + (m + rest), t, k)
    ensures (At(s, t, k) && k + |t| <= i) || (k >= i + |m| && At(rest, t, k - i - |m|))
  {
    OccurrenceAvoids(s[..i], m, rest, t, k);
    AtConcat(s[..i], m + rest, t, k);
    AtConcat(s[..i], s[i..], t, k);
    assert s == s[..i] + s[i..];
    if k >= i + |m| { AtConcat(m, rest, t, k - i); }
  }

  /** Replacing back restores the text. */
  lemma {:induction false} ReplaceBack(s: string, from: string, to: string)
    requires from != "" && Headed(to) && !Occurs(s, to)
    ensures ReplaceAll(ReplaceAll(s, from, to), to, from) == s
    decreases |s|
  {
    var at := Find(s, from);
    if at.Some? {
      var i := at.value;
      var tail := s[i + |from|..];
      if Occurs(tail, to) { OccursInTail(s, i + |from|, to); }
      ReplaceBack(tail, from, to);
      FirstIs(s, i, to, ReplaceAll(tail, from, to));
      BackStep(s, i, from, to, ReplaceAll(tail, from, to));
    }
  }

  lemma ReplaceStep(s: string, i: nat, from: string, to: string)
    requires from != "" && Find(s, from) == Some(i)
    ensures ReplaceAll(s, from, to) == s[..i] + (to + ReplaceAll(s[i + |from|..], from, to))
  {
  }

  lemma BackStep(s: string, i: nat, from: string, to: string, rest: string)
    requires from != "" && to != "" && At(s, from, i)
    requires ReplaceAll(rest, to, from) == s[i + |from|..]
    requires Find(s[..i] + (to + rest), to) == Some(i)
    ensures ReplaceAll(s[..i] + (to + rest), to, from) == s
  {
    var out := s[..i] + (to + rest);
    var back := ReplaceAll(out, to, from);
    calc {
      back;
    ==  { ReplaceStep(out, i, to, from); }
      out[..i] + (from + ReplaceAll(out[i + |to|..], to, from));
    ==  { CutMiddle(s, i, to, rest); }
      s[..i] + (from + s[i + |from|..]);
    ==  { Reassemble(s, from, i); }
      s;
    }
  }

  lemma CutMiddle(s: string, i: nat, m: string, b: string)
    requires i <= |s|
    ensures var out := s[..i] + (m + b); out[..i] == s[..i] && out[i + |m|..] == b
  {
  }

  lemma Reassemble(s: string, t: string, i: nat)
    requires At(s, t, i)
    ensures s == s[..i] + (t + s[i + |t|..])
  {
    assert s[i..] == t + s[i + |t|..];
  }

  lemma FirstIs(s: string, i: nat, to: string, rest: string)
    requires i <= |s| && Headed(to) && !Occurs(s, to)
    ensures Find(s[..i] + (to + rest), to) == Some(i)
  {
    var out := s[..i] + (to + rest);
    assert At(out, to, i) by {
      AtConcat(s[..i], to + rest, to, i);
      AtConcat(to, rest, to, 0);
    }
    forall k: nat | k < i
      ensures !At(out, to, k)
    {
      if k + |to| <= i {
        AtConcat(s[..i], to + rest, to, k);
        AtConcat(s[..i], s[i..], to, k);
        assert s == s[..i] + s[i..];
      } else {
        assert out[i] == to[0] && out[k..][i - k] == out[i];
      }
    }
  }

  lemma ReplacedHas(s: string, from: string, to: string, t: string)
    requires from != "" && Occurs(s, from) && Occurs(to, t)
    ensures Occurs(ReplaceAll(s, from, to), t)
  {
    var i := Find(s, from).value;
    OccursInMiddle(s[..i], to, ReplaceAll(s[i + |from|..], from, to), t);
  }

  lemma FirstReplacedHas(s: string, from: string, to: string, t: string)
    requires Occurs(to, t)
    ensures if Occurs(s, from) then Occurs(ReplaceFirst(s, from, to), t) else ReplaceFirst(s, from, to) == s
  {
    if Occurs(s, from) {
      var i := Find(s, from).value;
      OccursInMiddle(s[..i], to, s[i + |from|..], t);
    }
  }

  /** A text without a string has nothing that contains it. */
  lemma WithoutPart(s: string, whole: string, part: string)
    requires !Occurs(s, part) && Occurs(whole, part)
    ensures !Occurs(s, whole)
  {
    if k: nat :| At(s, whole, k) {
      OccursInMiddle(s[..k], whole, s[k + |whole|..], part);
      Reassemble(s, whole, k);
    }
  }

  // --- The rewrite --------------------------------------------------------------------------

  const PATTERN := "dev.gvisor.*"
  const BOTH := "[\"" + (PATTERN + "\", \"dev.neevcloud.*\"]")
  const OLD := "[\"dev.neevcloud.*\"]"
  const RUNTIME := "runtimes.runsc]"
  const MARKER := "  runtime_type = \"io.containerd.runsc.v1\"\n"
  const ANNOTATIONS := "pod_annotations = " + (BOTH + ("\n  container_annotations = " + BOTH))
  const HEADER := "\n[plugins.\"io.containerd.grpc.v1.cri\".containerd.runtimes.runsc]\n" + MARKER
  const BLOCK := HEADER + ("  " + (ANNOTATIONS + "\n"))
  const ADDED := MARKER + ("  " + (ANNOTATIONS + "\n"))

  datatype Report = AlreadyPresent | Extended | RuntimeAdded | AddedToRuntime

  function Choice(s: string): Report {
    if Find(s, PATTERN).Some? then AlreadyPresent
    else if Find(s, OLD).Some? then Extended
    else if Find(s, RUNTIME).None? then RuntimeAdded
    else AddedToRuntime
  }

  function Rewritten(s: string): string {
    match Choice(s)
    case AlreadyPresent => s
    case Extended => ReplaceAll(s, OLD, BOTH)
    case RuntimeAdded => s + BLOCK
    case AddedToRuntime => ReplaceFirst(s, MARKER, ADDED)
  }

  /** The node's configuration file; `writes` counts how often it was written. */
  class ConfigFile {
    var text: string
    var writes: nat

    method Rewrite() returns (report: Report)
      modifies this
      ensures text == Rewritten(old(text)) && report == Choice(old(text))
      ensures writes == old(writes) + if report.AlreadyPresent? then 0 else 1
    {
      var s := text;
      if Find(s, PATTERN).Some? {
        report := AlreadyPresent;
      } else if Find(s, OLD).Some? {
        s := ReplaceAll(s, OLD, BOTH);
        text, writes := s, writes + 1;
        report := Extended;
      } else if Find(s, RUNTIME).None? {
        s := s + BLOCK;
        text, writes := s, writes + 1;
        report := RuntimeAdded;
      } else {
        s := ReplaceFirst(s, MARKER, ADDED);
        text, writes := s, writes + 1;
        report := AddedToRuntime;
      }
    }
  }

  lemma BothHasPattern()
    ensures Occurs(BOTH, PATTERN)
  {
    assert Occurs(PATTERN, PATTERN) by { assert At(PATTERN, PATTERN, 0); }
    OccursInMiddle("[\"", PATTERN, "\", \"dev.neevcloud.*\"]", PATTERN);
  }

  lemma AddedHasPattern(head: string)
    ensures Occurs(head + ("  " + (ANNOTATIONS + "\n")), PATTERN)
  {
    BothHasPattern();
    OccursInMiddle("pod_annotations = ", BOTH, "\n  container_annotations = " + BOTH, PATTERN);
    OccursInMiddle("  ", ANNOTATIONS, "\n", PATTERN);
    OccursInMiddle(head, "  " + (ANNOTATIONS + "\n"), "", PATTERN);
    assert ("  " + (ANNOTATIONS + "\n")) + "" == "  " + (ANNOTATIONS + "\n");
  }

  /** Afterwards the passthrough is there, unless a runsc runtime exists without any passthrough
      to extend and without the exact line it would be added after. */
  lemma PassthroughIff(s: string)
    ensures Occurs(Rewritten(s), PATTERN) <==>
            !(Occurs(s, RUNTIME) && !Occurs(s, PATTERN) && !Occurs(s, OLD) && !Occurs(s, MARKER))
  {
    match Choice(s)
    case AlreadyPresent =>
    case Extended =>
      BothHasPattern();
      ReplacedHas(s, OLD, BOTH, PATTERN);
    case RuntimeAdded =>
      BlockHasPattern(s);
    case AddedToRuntime =>
      AddedHasPattern(MARKER);
      FirstReplacedHas(s, MARKER, ADDED, PATTERN);
  }

  lemma BlockHasPattern(s: string)
    ensures Occurs(s + BLOCK, PATTERN)
  {
    AddedHasPattern(HEADER);
    OccursInMiddle(s, BLOCK, "", PATTERN);
    assert BLOCK + "" == BLOCK;
  }

  /** Installing twice is installing once, on every text. */
  lemma RewriteIsIdempotent(s: string)
    ensures Rewritten(Rewritten(s)) == Rewritten(s)
  {
    PassthroughIff(s);
  }

  lemma OldAndBothAreApart()
    ensures Apart(OLD, BOTH) && Apart(BOTH, OLD)
  {
    assert OLD[6] == 'n' && BOTH[6] == 'g';
  }

  /** Extending leaves no passthrough without the new pattern, and loses nothing: the reverse
      replacement gives the text back. */
  lemma ExtensionIsReversible(s: string)
    requires Choice(s) == Extended
    ensures !Occurs(Rewritten(s), OLD)
    ensures ReplaceAll(Rewritten(s), BOTH, OLD) == s
  {
    OldAndBothAreApart();
    BothHasPattern();
    WithoutPart(s, BOTH, PATTERN);
    NoneLeft(s, OLD, BOTH);
    ReplaceBack(s, OLD, BOTH);
  }

  /** The two annotation lines as they read. */
  function AnnotationLines(): string {
    var both := "[\"dev.gvisor.*\", \"dev.neevcloud.*\"]";
    "  pod_annotations = " + both + "\n" + "  container_annotations = " + both + "\n"
  }

  lemma BothReads()
    ensures BOTH == "[\"dev.gvisor.*\", \"dev.neevcloud.*\"]"
  {
  }

  lemma LabelsRead()
    ensures "  " + "pod_annotations = " == "  pod_annotations = "
    ensures "\n" + "  container_annotations = " == "\n  container_annotations = "
  {
  }

  lemma LinesRegroup(indent: string, pod: string, both: string, end: string, container: string)
    ensures indent + ((pod + (both + ((end + container) + both))) + end)
            == (indent + pod) + both + end + container + both + end
  {
  }

  lemma AnnotationsRead()
    ensures "  " + (ANNOTATIONS + "\n") == AnnotationLines()
  {
    BothReads();
    LabelsRead();
    LinesRegroup("  ", "pod_annotations = ", BOTH, "\n", "  container_annotations = ");
  }

  /** Without any sign of the runtime the old text stays in front, and what follows it is one
      runtime block: its header, the marker line and the two annotation lines. */
  lemma AppendKeepsText(s: string)
    requires !Occurs(s, "dev.gvisor.*") && !Occurs(s, "[\"dev.neevcloud.*\"]") && !Occurs(s, "runtimes.runsc]")
    ensures s < Rewritten(s)
    ensures Rewritten(s) == s +
            (("\n[plugins.\"io.containerd.grpc.v1.cri\".containerd.runtimes.runsc]\n"
              + "  runtime_type = \"io.containerd.runsc.v1\"\n")
             + AnnotationLines())
  {
    AnnotationsRead();
    assert Rewritten(s) == s + BLOCK;
    assert |BLOCK| >= |AnnotationLines()| > 0;
  }

  /** With a runtime and nothing to extend, what is inserted is one stretch, right after the
      first marker line: the two annotation lines. Without it the text is the old one; and where
      there is no marker line nothing changes. */
  lemma InsertionKeepsText(s: string)
    requires !Occurs(s, "dev.gvisor.*") && !Occurs(s, "[\"dev.neevcloud.*\"]") && Occurs(s, "runtimes.runsc]")
    ensures var marker := "  runtime_type = \"io.containerd.runsc.v1\"\n";
            if Occurs(s, marker) then
              exists i: nat :: InsertedAt(s, marker, i, AnnotationLines(), Rewritten(s))
            else Rewritten(s) == s
  {
    AnnotationsRead();
    if Occurs(s, MARKER) {
      var i := Find(s, MARKER).value;
      InsertAfter(s, MARKER, i, AnnotationLines());
      assert InsertedAt(s, MARKER, i, AnnotationLines(), Rewritten(s));
    }
  }

  /** `t` is `s` with lines inserted after the first occurrence of the marker, at `i`. */
  predicate InsertedAt(s: string, marker: string, i: nat, lines: string, t: string) {
    && At(s, marker, i) && (forall k | 0 <= k < i :: !At(s, marker, k))
    && t == s[..i + |marker|] + lines + s[i + |marker|..]
  }

  lemma InsertAfter(s: string, marker: string, i: nat, lines: string)
    requires At(s, marker, i)
    ensures s[..i] + ((marker + lines) + s[i + |marker|..]) == s[..i + |marker|] + lines + s[i + |marker|..]
  {
    assert s[..i + |marker|] == s[..i] + marker;
  }

  /** Which of the four cases a text falls under. */
  lemma ChoiceIsByContents(s: string)
    ensures Choice(s) == if Occurs(s, "dev.gvisor.*") then AlreadyPresent
                         else if Occurs(s, "[\"dev.neevcloud.*\"]") then Extended
                         else if Occurs(s, "runtimes.runsc]") then AddedToRuntime
                         else RuntimeAdded
    ensures Occurs(s, "dev.gvisor.*") ==> Rewritten(s) == s
  {
  }
}
