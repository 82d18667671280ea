/** What the checks of an analysis accept, drop, report and refuse, in terms of the cited files and the
    text written. */
module AnalysisMeaning {
  import opened Wrappers
  import opened Order
  import opened EvidenceIndex
  import opened ResultValidation
  import opened Citations
  import opened WorkspaceAnalysis
  import opened QuoteText

  // ------------------------------------------------------------------ one citation

  /** The quote is at most 200 lines of the content, not blank, of at most 2048 bytes. */
  ghost predicate IsQuote(content: string, a: int, b: int, trim: string -> string, quote: string) {
    && 1 <= a <= b <= LineCount(content) && b - a < 200 && IsTextOfLines(content, a, b, quote)
    && trim(quote) != "" && |quote| <= 2048
  }

  /** Citation d is c as published: its path trimmed, its quote read from the file. A strict check
      demands that c carries that quote, and a source citation the verified mark. */
  ghost predicate Passes(rules: Rules, c: Citation, strict: bool, d: Citation) {
    && d.path == rules.trim(c.path) && d.lineStart == c.lineStart && d.lineEnd == c.lineEnd
    && (d.verified <==> rules.isSource || c.verified)
    && rules.resolve(d.path).Some? && IsQuote(rules.resolve(d.path).value.content, d.lineStart, d.lineEnd, rules.trim, d.quote)
    && (strict ==> c.quote == d.quote && (rules.isSource ==> c.verified))
  }

  lemma PassingIsExact(rules: Rules, c: Citation, strict: bool)
    ensures forall d :: Check(rules, c, strict) == Success(d) <==> Passes(rules, c, strict, d)
  {
    var file := rules.resolve(rules.trim(c.path));
    if file.Some? { QuoteIsFileText(file.value.content, c.lineStart, c.lineEnd, rules.trim); }
    forall d | Passes(rules, c, strict, d) ensures Check(rules, c, strict) == Success(d) {
      assert CanonicalQuote(file.value.content, c.lineStart, c.lineEnd, rules.trim) == Some(d.quote);
    }
  }

  /** A citation that does not pass is refused for its path if there is no such file, and for its
      lines otherwise. */
  lemma RefusalIsExact(rules: Rules, c: Citation, strict: bool)
    ensures Check(rules, c, strict).Failure? <==> forall d :: !Passes(rules, c, strict, d)
    ensures Check(rules, c, strict).Failure? ==>
              Check(rules, c, strict).error == if rules.resolve(rules.trim(c.path)).None?
                                               then if rules.isSource then SourcePath else ArtifactPath
                                               else if rules.isSource then SourceLineRange else ArtifactLineRange
  {
    PassingIsExact(rules, c, strict);
    if Check(rules, c, strict).Success? { assert Passes(rules, c, strict, Check(rules, c, strict).value); }
  }

  function Spelled(rules: Rules, what: string): string {
    (if rules.isSource then "invalid_source_" else "invalid_artifact_") + what
  }

  lemma PathAndLineCodes(rules: Rules)
    ensures Name(PathCode(rules)) == Spelled(rules, "path") && Name(LineCode(rules)) == Spelled(rules, "line_range")
  {
  }

  lemma OverlapAndCountCodes(rules: Rules)
    ensures Name(OverlapCode(rules)) == Spelled(rules, "overlap") && Name(CountCode(rules)) == Spelled(rules, "citation_count")
  {
  }

  // ------------------------------------------------------------------ picking in order

  /** Of the positions that fit, those picked: all of them up to a limit, the earliest first. */
  ghost predicate Picks(at: seq<nat>, fits: seq<bool>, limit: nat) {
    && |at| <= limit && (forall m, n :: 0 <= m < n < |at| ==> at[m] < at[n]) && (forall k :: k in at ==> k < |fits|)
    && forall k :: 0 <= k < |fits| ==> (k in at <==> fits[k] && (|at| < limit || (at != [] && k <= at[|at| - 1])))
  }

  lemma PickOne(at: seq<nat>, fits: seq<bool>, limit: nat, fit: bool)
    requires Picks(at, fits, limit)
    ensures Picks(if fit && |at| < limit then at + [|fits|] else at, fits + [fit], limit)
  {
    assert forall k :: k in at + [|fits|] <==> k in at || k == |fits|;
    assert forall n :: 0 <= n < |at| ==> at[n] in at;
  }

  // ------------------------------------------------------------------ the walk over the citations

  predicate Covers(c: Citation, line: int) {
    c.lineStart <= line <= c.lineEnd
  }

  /** Two citations of the same file that have a line in common. */
  ghost predicate ShareLine(rules: Rules, a: Citation, b: Citation) {
    && rules.resolve(a.path).Some? && rules.resolve(b.path).Some?
    && rules.resolve(a.path).value.identity == rules.resolve(b.path).value.identity
    && exists line :: Covers(a, line) && Covers(b, line)
  }

  lemma ClashIsSharedLine(rules: Rules, a: Citation, b: Citation)
    requires rules.resolve(a.path).Some? && rules.resolve(b.path).Some? && a.lineStart <= a.lineEnd && b.lineStart <= b.lineEnd
    ensures Clash(rules, a, b) <==> ShareLine(rules, a, b)
  {
    if Clash(rules, a, b) {
      var line := if a.lineStart < b.lineStart then b.lineStart else a.lineStart;
      assert Covers(a, line) && Covers(b, line);
    }
  }

  /** Citation k shares a line with one picked before it. */
  ghost predicate Repeats(rules: Rules, checked: seq<Citation>, at: seq<nat>, k: nat)
    requires k < |checked|
  {
    exists j: nat :: j in at && j < k && ShareLine(rules, checked[j], checked[k])
  }

  /** Every citation passes as the checked one at its place; those that repeat no line of one picked
      earlier are picked, up to the limit. */
  ghost predicate Walk(rules: Rules, cs: seq<Citation>, strict: bool, checked: seq<Citation>, at: seq<nat>, fits: seq<bool>) {
    AllPass(rules, cs, strict, checked) && |fits| == |cs| && Picks(at, fits, rules.max) && FitsAre(rules, checked, at, fits)
  }

  ghost predicate AllPass(rules: Rules, cs: seq<Citation>, strict: bool, checked: seq<Citation>) {
    |checked| == |cs| && forall k :: 0 <= k < |cs| ==> Passes(rules, cs[k], strict, checked[k])
  }

  ghost predicate FitsAre(rules: Rules, checked: seq<Citation>, at: seq<nat>, fits: seq<bool>) {
    |fits| == |checked| && forall k: nat :: k < |checked| ==> (fits[k] <==> !Repeats(rules, checked, at, k))
  }

  ghost predicate Picked<T>(from: seq<T>, at: seq<nat>, out: seq<T>) {
    |out| == |at| && forall n :: 0 <= n < |at| ==> at[n] < |from| && out[n] == from[at[n]]
  }

  /** What is warned of: a repeated line, and a citation that found no room. */
  ghost predicate WarnsOf(rules: Rules, warnings: set<Code>, at: seq<nat>, fits: seq<bool>) {
    forall code :: code in warnings <==>
      || (code == (if rules.isSource then SourceOverlap else ArtifactOverlap) && false in fits)
      || (code == (if rules.isSource then SourceCount else ArtifactCount) && LeavesOut(at, fits))
  }

  predicate LeavesOut(at: seq<nat>, fits: seq<bool>) {
    exists k: nat :: k < |fits| && fits[k] && k !in at
  }

  lemma AddedClashes(rules: Rules, checked: seq<Citation>, at: seq<nat>, out: seq<Citation>, d: Citation)
    requires Picked(checked, at, out) && (forall k :: k in at ==> k < |checked|)
    requires forall k :: 0 <= k < |checked| ==> rules.resolve(checked[k].path).Some? && checked[k].lineStart <= checked[k].lineEnd
    requires rules.resolve(d.path).Some? && d.lineStart <= d.lineEnd
    ensures ClashesWithAny(rules, out, d) <==> Repeats(rules, checked + [d], at, |checked|)
  {
    var longer := checked + [d];
    forall k | k in out ensures Clash(rules, k, d) <==> ShareLine(rules, k, d) {
      var n :| 0 <= n < |out| && out[n] == k;
      ClashIsSharedLine(rules, k, d);
    }
    if ClashesWithAny(rules, out, d) {
      var k :| k in out && Clash(rules, k, d);
      var n :| 0 <= n < |out| && out[n] == k;
      assert at[n] in at && ShareLine(rules, longer[at[n]], longer[|checked|]);
    }
    if Repeats(rules, longer, at, |checked|) {
      var j: nat :| j in at && j < |checked| && ShareLine(rules, longer[j], longer[|checked|]);
      var n :| 0 <= n < |at| && at[n] == j;
      assert out[n] in out;
    }
  }

  lemma RepeatsStay(rules: Rules, checked: seq<Citation>, at: seq<nat>, d: Citation, k: nat)
    requires k < |checked|
    ensures Repeats(rules, checked + [d], at, k) == Repeats(rules, checked, at, k) == Repeats(rules, checked + [d], at + [|checked|], k)
  {
    var longer := checked + [d];
    assert forall j :: j in at + [|checked|] <==> j in at || j == |checked|;
    assert forall j :: 0 <= j < |checked| ==> longer[j] == checked[j];
  }

  lemma LastRepeats(rules: Rules, checked: seq<Citation>, at: seq<nat>, d: Citation)
    ensures Repeats(rules, checked + [d], at, |checked|) == Repeats(rules, checked + [d], at + [|checked|], |checked|)
  {
    assert forall j :: j in at + [|checked|] <==> j in at || j == |checked|;
  }

  lemma FitsOneMore(rules: Rules, checked: seq<Citation>, at: seq<nat>, fits: seq<bool>, d: Citation, picked: bool)
    requires FitsAre(rules, checked, at, fits)
    ensures FitsAre(rules, checked + [d], if picked then at + [|checked|] else at, fits + [!Repeats(rules, checked + [d], at, |checked|)])
  {
    var at' := if picked then at + [|checked|] else at;
    var longer := fits + [!Repeats(rules, checked + [d], at, |checked|)];
    forall k: nat | k < |checked + [d]| ensures longer[k] <==> !Repeats(rules, checked + [d], at', k) {
      if k < |checked| { RepeatsStay(rules, checked, at, d, k); } else { LastRepeats(rules, checked, at, d); }
    }
  }

  lemma PassOneMore(rules: Rules, cs: seq<Citation>, strict: bool, checked: seq<Citation>, d: Citation)
    requires cs != [] && AllPass(rules, cs[..|cs| - 1], strict, checked) && Passes(rules, cs[|cs| - 1], strict, d)
    ensures AllPass(rules, cs, strict, checked + [d])
  {
    forall k | 0 <= k < |cs| ensures Passes(rules, cs[k], strict, (checked + [d])[k]) {
      if k < |checked| { assert cs[k] == cs[..|cs| - 1][k]; }
    }
  }

  lemma WarnOneMore(rules: Rules, warnings: set<Code>, at: seq<nat>, fits: seq<bool>, fit: bool, room: bool)
    requires WarnsOf(rules, warnings, at, fits) && forall k :: k in at ==> k < |fits|
    ensures !fit ==> WarnsOf(rules, warnings + {if rules.isSource then SourceOverlap else ArtifactOverlap}, at, fits + [fit])
    ensures fit && room ==> WarnsOf(rules, warnings, at + [|fits|], fits + [fit])
    ensures fit && !room ==> WarnsOf(rules, warnings + {if rules.isSource then SourceCount else ArtifactCount}, at, fits + [fit])
  {
    var longer, n := fits + [fit], |fits|;
    assert longer[n] == fit && forall k :: 0 <= k < n ==> longer[k] == fits[k];
    assert false in longer <==> false in fits || !fit;
    assert forall k :: k in at + [n] <==> k in at || k == n;
    assert LeavesOut(at + [n], longer) <==> LeavesOut(at, fits);
    assert LeavesOut(at, longer) <==> LeavesOut(at, fits) || fit;
  }

  /** A walk over all citations that explains what was gathered. */
  ghost predicate Gathers(rules: Rules, cs: seq<Citation>, strict: bool, g: Gathered, checked: seq<Citation>, at: seq<nat>, fits: seq<bool>) {
    Walk(rules, cs, strict, checked, at, fits) && Picked(checked, at, g.out) && WarnsOf(rules, g.warnings, at, fits)
  }

  lemma GatherOneMore(rules: Rules, cs: seq<Citation>, strict: bool, g: Gathered, checked: seq<Citation>, at: seq<nat>, fits: seq<bool>, d: Citation)
    returns (at': seq<nat>, fits': seq<bool>)
    requires cs != [] && Gathers(rules, cs[..|cs| - 1], strict, g, checked, at, fits) && Passes(rules, cs[|cs| - 1], strict, d)
    ensures Gathers(rules, cs, strict, Added(rules, g, d), checked + [d], at', fits')
  {
    var fit, room := !Repeats(rules, checked + [d], at, |checked|), |at| < rules.max;
    AddedClashes(rules, checked, at, g.out, d);
    PassOneMore(rules, cs, strict, checked, d);
    PickOne(at, fits, rules.max, fit);
    FitsOneMore(rules, checked, at, fits, d, fit && room);
    WarnOneMore(rules, g.warnings, at, fits, fit, room);
    at', fits' := if fit && room then at + [|checked|] else at, fits + [fit];
  }

  /** The walk accepts when every citation passes; it picks in order and says what it left out. */
  lemma {:induction false} WalkIsExact(rules: Rules, cs: seq<Citation>, strict: bool)
    returns (checked: seq<Citation>, at: seq<nat>, fits: seq<bool>)
    requires Gather(rules, cs, strict).Success?
    ensures Gathers(rules, cs, strict, Gather(rules, cs, strict).value, checked, at, fits)
    decreases |cs|
  {
    checked, at, fits := [], [], [];
    if cs != [] {
      var rest, last := cs[..|cs| - 1], cs[|cs| - 1];
      checked, at, fits := WalkIsExact(rules, rest, strict);
      PassingIsExact(rules, last, strict);
      var d := Check(rules, last, strict).value;
      at, fits := GatherOneMore(rules, cs, strict, Gather(rules, rest, strict).value, checked, at, fits, d);
      checked := checked + [d];
    }
  }

  /** The first citation that does not pass decides the refusal. */
  lemma {:induction false} WalkRefuses(rules: Rules, cs: seq<Citation>, strict: bool) returns (k: nat)
    requires Gather(rules, cs, strict).Failure?
    ensures k < |cs| && Check(rules, cs[k], strict) == Failure(Gather(rules, cs, strict).error)
    ensures forall j :: 0 <= j < k ==> Check(rules, cs[j], strict).Success?
    decreases |cs|
  {
    k := |cs| - 1;
    if Gather(rules, cs[..k], strict).Failure? {
      k := WalkRefuses(rules, cs[..k], strict);
    } else {
      AllPassed(rules, cs[..k], strict);
      forall j | 0 <= j < k ensures Check(rules, cs[j], strict).Success? { assert cs[..k][j] == cs[j]; }
    }
  }

  lemma {:induction false} AllPassed(rules: Rules, cs: seq<Citation>, strict: bool)
    requires Gather(rules, cs, strict).Success?
    ensures forall j :: 0 <= j < |cs| ==> Check(rules, cs[j], strict).Success?
    decreases |cs|
  {
    if cs != [] {
      AllPassed(rules, cs[..|cs| - 1], strict);
      forall j | 0 <= j < |cs| ensures Check(rules, cs[j], strict).Success? {
        if j < |cs| - 1 { assert cs[..|cs| - 1][j] == cs[j]; }
      }
    }
  }

  // ------------------------------------------------------------------ the verified list

  /** By path, then by first line, then by last line. */
  predicate ReadsBefore(a: Citation, b: Citation) {
    Less(a.path, b.path) || (a.path == b.path && (a.lineStart < b.lineStart || (a.lineStart == b.lineStart && a.lineEnd <= b.lineEnd)))
  }

  /** The list, in reading order, holds the citations picked by a walk over all of them. */
  ghost predicate Verified(rules: Rules, cs: seq<Citation>, strict: bool, g: Gathered) {
    && (forall i, j :: 0 <= i < j < |g.out| ==> ReadsBefore(g.out[i], g.out[j]))
    && exists checked, at, fits, picked ::
         Walk(rules, cs, strict, checked, at, fits) && Picked(checked, at, picked) && multiset(picked) == multiset(g.out) &&
         ReportsAll(rules, cs, g.warnings, at, fits)
  }

  /** Warned of: a repeated line, more citations than allowed, one that found no room. */
  ghost predicate ReportsAll(rules: Rules, cs: seq<Citation>, warnings: set<Code>, at: seq<nat>, fits: seq<bool>) {
    forall code :: code in warnings <==>
      || (code == (if rules.isSource then SourceOverlap else ArtifactOverlap) && false in fits)
      || (code == (if rules.isSource then SourceCount else ArtifactCount) && (|cs| > rules.max || LeavesOut(at, fits)))
  }

  ghost predicate CanPass(rules: Rules, c: Citation, strict: bool) {
    exists d :: Passes(rules, c, strict, d)
  }

  /** The citation check accepts exactly when every citation passes and, for artifacts, there is one. */
  lemma AcceptanceIsExact(rules: Rules, cs: seq<Citation>, strict: bool)
    requires rules.max > 0
    ensures Verify(rules, cs, strict).Success? <==> (rules.isSource || cs != []) && forall k :: 0 <= k < |cs| ==> CanPass(rules, cs[k], strict)
  {
    forall k | 0 <= k < |cs| ensures Check(rules, cs[k], strict).Success? <==> CanPass(rules, cs[k], strict) {
      RefusalIsExact(rules, cs[k], strict);
    }
    if Gather(rules, cs, strict).Failure? {
      var k := WalkRefuses(rules, cs, strict);
    } else {
      AllPassed(rules, cs, strict);
      var checked, at, fits := WalkIsExact(rules, cs, strict);
      if cs != [] { FirstIsPicked(rules, cs, strict, checked, at, fits); }
    }
  }

  lemma AcceptedIsVerified(rules: Rules, cs: seq<Citation>, strict: bool)
    requires Verify(rules, cs, strict).Success?
    ensures Verified(rules, cs, strict, Verify(rules, cs, strict).value)
  {
    var checked, at, fits := WalkIsExact(rules, cs, strict);
    VerifiedOf(rules, cs, strict, checked, at, fits);
  }

  lemma FirstIsPicked(rules: Rules, cs: seq<Citation>, strict: bool, checked: seq<Citation>, at: seq<nat>, fits: seq<bool>)
    requires rules.max > 0 && cs != [] && Walk(rules, cs, strict, checked, at, fits)
    ensures at != []
  {
    assert !Repeats(rules, checked, at, 0);
    assert fits[0];
  }

  lemma VerifiedOf(rules: Rules, cs: seq<Citation>, strict: bool, checked: seq<Citation>, at: seq<nat>, fits: seq<bool>)
    requires Verify(rules, cs, strict).Success?
    requires Walk(rules, cs, strict, checked, at, fits) && Picked(checked, at, Gather(rules, cs, strict).value.out)
    requires WarnsOf(rules, Gather(rules, cs, strict).value.warnings, at, fits)
    ensures Verified(rules, cs, strict, Verify(rules, cs, strict).value)
  {
    var picked, g := Gather(rules, cs, strict).value.out, Verify(rules, cs, strict).value;
    CitationOrder();
    SortSorts(CitationAtMost, picked);
    forall i, j | 0 <= i < j < |g.out| ensures ReadsBefore(g.out[i], g.out[j]) { assert CitationAtMost(g.out[i], g.out[j]); }
    assert Picked(checked, at, picked) && ReportsAll(rules, cs, g.warnings, at, fits);
  }

  /** Otherwise the missing artifact citation or the first citation that does not pass is named. */
  lemma RefusalNamesTheFirst(rules: Rules, cs: seq<Citation>, strict: bool)
    requires rules.max > 0 && Verify(rules, cs, strict).Failure?
    ensures || (!rules.isSource && cs == [] && Verify(rules, cs, strict).error == ArtifactCount)
            || exists k :: 0 <= k < |cs| && Check(rules, cs[k], strict) == Failure(Verify(rules, cs, strict).error) &&
                           forall j :: 0 <= j < k ==> Check(rules, cs[j], strict).Success?
  {
    if Gather(rules, cs, strict).Failure? {
      var k := WalkRefuses(rules, cs, strict);
    } else if cs != [] {
      var checked, at, fits := WalkIsExact(rules, cs, strict);
      FirstIsPicked(rules, cs, strict, checked, at, fits);
    }
  }
}
