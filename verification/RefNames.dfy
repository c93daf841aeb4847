/** Names of the refs a release touches (tools/stack.py:86-95, 467-473, 498, 535). */
module RefNames {
  import opened Manifests

  const HEADS := "refs/heads/"

  function RemovePrefix(s: string, prefix: string): string {
    if prefix <= s then s[|prefix|..] else s
  }

  function Branch(m: Manifest): string {
    "neev/" + RemovePrefix(m.tag, "gvisor-")
  }

  function BaseBranch(m: Manifest): string {
    "neev/base-" + m.base
  }

  function BranchRef(m: Manifest): string {
    HEADS + Branch(m)
  }

  function BaseRef(m: Manifest): string {
    HEADS + BaseBranch(m)
  }

  function Digit(d: nat): char
    requires d < 10
  {
    '0' + d as char
  }

  /** Decimal text of a natural number. */
  function Decimal(n: nat): string {
    if n < 10 then [Digit(n)] else Decimal(n / 10) + [Digit(n % 10)]
  }

  /** `{index:02d}` */
  function TwoDigits(n: nat): string {
    if n < 10 then "0" + Decimal(n) else Decimal(n)
  }

  function MirrorRef(m: Manifest, index: nat): string {
    "refs/heads/neev/mirror/" + m.tag + "/" + TwoDigits(index)
  }

  // --- Distinctness ---------------------------------------------------------------------

  function DigitValue(c: char): int {
    c as int - '0' as int
  }

  /** Reads decimal text back. */
  function Value(s: string): int {
    if s == [] then 0 else 10 * Value(s[..|s| - 1]) + DigitValue(s[|s| - 1])
  }

  lemma {:induction false} DecimalRoundTrip(n: nat)
    ensures Value(Decimal(n)) == n
    ensures Value(TwoDigits(n)) == n
  {
    if n < 10 {
      assert Decimal(n)[..0] == [];
      var t := TwoDigits(n);
      assert t == ['0', Digit(n)] && t[..1] == ['0'] && t[..1][..0] == [];
    } else {
      DecimalRoundTrip(n / 10);
      var t := Decimal(n);
      assert t[..|t| - 1] == Decimal(n / 10);
    }
  }

  /** Decimal digits, with a leading zero only where there would be a single digit. */
  predicate IsTwoDigits(s: string) {
    && |s| >= 2 && (forall i | 0 <= i < |s| :: '0' <= s[i] <= '9')
    && (|s| > 2 ==> s[0] != '0')
  }

  lemma {:induction false} DecimalIsPlain(n: nat)
    ensures var d := Decimal(n);
            && d != [] && (forall i | 0 <= i < |d| :: '0' <= d[i] <= '9')
            && (n >= 10 ==> |d| >= 2) && (n > 0 ==> d[0] != '0')
  {
    if n >= 10 { DecimalIsPlain(n / 10); }
  }

  /** The names themselves: a mirror ends in the position it is for, in two digits or more; the
      branches lie under neev/, the documented prefix of the tag dropped. */
  lemma NamesAreAsDocumented(m: Manifest, i: nat, rest: string)
    ensures var n := MirrorRef(m, i);
            var prefix := "refs/heads/neev/mirror/" + m.tag + "/";
            prefix <= n && IsTwoDigits(n[|prefix|..]) && Value(n[|prefix|..]) == i
    ensures m.tag == "gvisor-" + rest ==> BranchRef(m) == "refs/heads/" + ("neev/" + rest)
    ensures !("gvisor-" <= m.tag) ==> BranchRef(m) == "refs/heads/" + ("neev/" + m.tag)
    ensures BaseRef(m) == "refs/heads/" + ("neev/base-" + m.base)
  {
    var prefix := "refs/heads/neev/mirror/" + m.tag + "/";
    DecimalIsPlain(i);
    DecimalRoundTrip(i);
    assert MirrorRef(m, i)[|prefix|..] == TwoDigits(i);
    assert ("gvisor-" + rest)[|"gvisor-"|..] == rest;
  }

  /** Padding to two digits stops mattering at one hundred, yet no two positions of one
      manifest ever share a mirror. */
  lemma MirrorRefInjective(m: Manifest, i: nat, j: nat)
    ensures MirrorRef(m, i) == MirrorRef(m, j) <==> i == j
  {
    DecimalRoundTrip(i);
    DecimalRoundTrip(j);
    var prefix := "refs/heads/neev/mirror/" + m.tag + "/";
    assert MirrorRef(m, i)[|prefix|..] == TwoDigits(i);
    assert MirrorRef(m, j)[|prefix|..] == TwoDigits(j);
  }

  /** No mirror is any manifest's base branch, nor its own manifest's stack branch. */
  lemma MirrorIsNoOtherRef(m: Manifest, n: Manifest, i: nat)
    ensures MirrorRef(m, i) != BaseRef(n)
    ensures MirrorRef(m, i) != BranchRef(m)
  {
    var mirror := MirrorRef(m, i);
    assert mirror[16] == 'm' && BaseRef(n)[16] == 'b';
    assert |mirror| > |BranchRef(m)|;
  }

  /** Two tags of the documented form have different branches. */
  lemma BranchInjective(m: Manifest, n: Manifest)
    requires "gvisor-" <= m.tag && "gvisor-" <= n.tag
    ensures BranchRef(m) == BranchRef(n) <==> m.tag == n.tag
  {
    var a, b := RemovePrefix(m.tag, "gvisor-"), RemovePrefix(n.tag, "gvisor-");
    assert m.tag == "gvisor-" + a && n.tag == "gvisor-" + b;
    assert BranchRef(m)[|HEADS + "neev/"|..] == a;
    assert BranchRef(n)[|HEADS + "neev/"|..] == b;
  }

  /** The tags collide: one is the other behind the prefix that is dropped. */
  predicate Collide(s: string, t: string) {
    s == "gvisor-" + t && !("gvisor-" <= t)
  }

  /** In general two different tags share a branch if and only if one is the other with the
      documented prefix, which the other lacks. */
  lemma BranchesEqualIff(m: Manifest, n: Manifest)
    ensures BranchRef(m) == BranchRef(n) <==> m.tag == n.tag || Collide(m.tag, n.tag) || Collide(n.tag, m.tag)
  {
    var a, b := RemovePrefix(m.tag, "gvisor-"), RemovePrefix(n.tag, "gvisor-");
    assert m.tag == (if "gvisor-" <= m.tag then "gvisor-" + a else a);
    assert n.tag == (if "gvisor-" <= n.tag then "gvisor-" + b else b);
    assert BranchRef(m)[|HEADS + "neev/"|..] == a;
    assert BranchRef(n)[|HEADS + "neev/"|..] == b;
    assert "gvisor-" <= "gvisor-" + a && ("gvisor-" + a)[|"gvisor-"|..] == a;
    assert "gvisor-" <= "gvisor-" + b && ("gvisor-" + b)[|"gvisor-"|..] == b;
  }

  /** The stack branch is its own review base exactly for one shape of tag. */
  lemma BranchIsBaseIff(m: Manifest)
    ensures BranchRef(m) == BaseRef(m) <==> RemovePrefix(m.tag, "gvisor-") == "base-" + m.base
  {
    var neev := HEADS + "neev/";
    assert BranchRef(m) == neev + RemovePrefix(m.tag, "gvisor-");
    assert BaseRef(m) == neev + ("base-" + m.base);
    assert BranchRef(m)[|neev|..] == RemovePrefix(m.tag, "gvisor-");
    assert BaseRef(m)[|neev|..] == "base-" + m.base;
  }
}
