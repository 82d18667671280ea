/** Canonicalizing an analysis: the executor canonicalizes what the model wrote, and the host checks
    the result again in strict mode. */
module WorkspaceAnalysis {
  import opened Wrappers
  import opened Order
  import opened ResultValidation
  import opened Citations

  datatype Analysis = Analysis(
    summary: string, isTransient: bool, rootCause: string, severity: string, suggestedFix: string, relevantFiles: seq<string>,
    evidence: seq<Citation>, sources: seq<Citation>, unresolved: seq<string>)

  /** The workspace as both runs see it. */
  datatype Workspace = Workspace(
    manifestValid: bool, trim: string -> string, isUtf8: string -> bool, isSafe: string -> bool,
    artifact: string -> Option<string>, sourceFile: string -> Option<File>, identity: string -> Option<string>)

  const MAX_SUMMARY: nat := 0x800
  const MAX_ROOT_CAUSE: nat := 0x6000
  const MAX_SUGGESTED_FIX: nat := 0x3000
  const MAX_UNRESOLVED_BYTES: nat := 0x1000
  const MAX_UNRESOLVED: nat := 20
  const MAX_RELEVANT_FILES: nat := 20

  /** An artifact is its path; a source file is what its path resolves to. */
  function ArtifactFile(w: Workspace, path: string): Option<File> {
    match w.artifact(path) case None => None case Some(content) => Some(File(content, path))
  }

  function ArtifactRules(w: Workspace): Rules { Rules(false, MAX_EVIDENCE_CITATIONS, w.trim, path => ArtifactFile(w, path)) }
  function SourceRules(w: Workspace): Rules { Rules(true, MAX_SOURCE_CITATIONS, w.trim, w.sourceFile) }

  // ------------------------------------------------------------------ text

  predicate KnownSeverity(severity: string) {
    severity in {"Critical", "High", "Medium", "Low", "Transient-Ignore"}
  }

  predicate FitsText(w: Workspace, text: string, limit: nat) {
    w.isUtf8(text) && |text| <= limit
  }

  predicate GoodDetail(w: Workspace, detail: string) {
    detail != "" && FitsText(w, detail, MAX_UNRESOLVED_BYTES)
  }

  /** The details kept: trimmed, usable, the first 20. */
  function KeptDetails(w: Workspace, details: seq<string>): (r: seq<string>)
    ensures |r| <= MAX_UNRESOLVED
  {
    if details == [] then []
    else
      var kept, detail := KeptDetails(w, details[..|details| - 1]), w.trim(details[|details| - 1]);
      if GoodDetail(w, detail) && |kept| < MAX_UNRESOLVED then kept + [detail] else kept
  }

  datatype Warned<T> = Warned(value: T, warnings: set<Code>)

  function WarnIf(warn: bool, code: Code): set<Code> {
    if warn then {code} else {}
  }

  function CanonicalText(w: Workspace, a: Analysis): Result<Warned<Analysis>, Code> {
    var summary, rootCause, severity, fix := w.trim(a.summary), w.trim(a.rootCause), w.trim(a.severity), w.trim(a.suggestedFix);
    var details := KeptDetails(w, a.unresolved);
    if summary == "" || !FitsText(w, summary, MAX_SUMMARY) || rootCause == "" || !FitsText(w, rootCause, MAX_ROOT_CAUSE)
    then Failure(InvalidText)
    else if !KnownSeverity(severity) then Failure(InvalidClassification)
    else
      var fixFits, transient := FitsText(w, fix, MAX_SUGGESTED_FIX), severity == "Transient-Ignore";
      Success(Warned(
        a.(summary := summary, rootCause := rootCause, severity := severity, suggestedFix := if fixFits then fix else "",
           isTransient := transient, unresolved := details),
        WarnIf(!fixFits || |details| < |a.unresolved|, InvalidText) + WarnIf(a.isTransient != transient, InvalidClassification)))
  }

  /** canonicalizeWorkspaceAnalysisText. */
  method CanonicalizeText(w: Workspace, a: Analysis) returns (result: Result<Warned<Analysis>, Code>)
    ensures result == CanonicalText(w, a)
  {
    var analysis := a.(summary := w.trim(a.summary), rootCause := w.trim(a.rootCause));
    analysis := analysis.(severity := w.trim(a.severity), suggestedFix := w.trim(a.suggestedFix));
    var warnings: set<Code> := {};
    if analysis.summary == "" || !w.isUtf8(analysis.summary) || |analysis.summary| > MAX_SUMMARY ||
       analysis.rootCause == "" || !w.isUtf8(analysis.rootCause) || |analysis.rootCause| > MAX_ROOT_CAUSE {
      return Failure(InvalidText);
    }
    if !w.isUtf8(analysis.suggestedFix) || |analysis.suggestedFix| > MAX_SUGGESTED_FIX {
      analysis := analysis.(suggestedFix := "");
      warnings := warnings + {InvalidText};
    }
    if !KnownSeverity(analysis.severity) { return Failure(InvalidClassification); }
    var isTransient := analysis.severity == "Transient-Ignore";
    if analysis.isTransient != isTransient {
      analysis := analysis.(isTransient := isTransient);
      warnings := warnings + {InvalidClassification};
    }
    var details := KeepDetails(w, analysis.unresolved);
    if |details| < |a.unresolved| { warnings := warnings + {InvalidText}; }
    assert warnings == WarnIf(!FitsText(w, w.trim(a.suggestedFix), MAX_SUGGESTED_FIX) || |details| < |a.unresolved|, InvalidText) +
                       WarnIf(a.isTransient != isTransient, InvalidClassification);
    result := Success(Warned(analysis.(unresolved := details), warnings));
  }

  method KeepDetails(w: Workspace, details: seq<string>) returns (unresolved: seq<string>)
    ensures unresolved == KeptDetails(w, details)
  {
    unresolved := [];
    for k := 0 to |details|
      invariant unresolved == KeptDetails(w, details[..k])
    {
      assert details[..k + 1][..k] == details[..k];
      var detail := w.trim(details[k]);
      if detail == "" || !w.isUtf8(detail) || |detail| > MAX_UNRESOLVED_BYTES || |unresolved| == MAX_UNRESOLVED { continue; }
      unresolved := unresolved + [detail];
    }
    assert details[..|details|] == details;
  }

  predicate GoodDetails(w: Workspace, details: seq<string>) {
    |details| <= MAX_UNRESOLVED && forall detail :: detail in details ==> w.trim(detail) == detail && GoodDetail(w, detail)
  }

  lemma {:induction false} KeptDetailsAreGood(w: Workspace, details: seq<string>)
    requires TrimsOnce(w.trim)
    ensures GoodDetails(w, KeptDetails(w, details)) && |KeptDetails(w, details)| <= |details|
    decreases |details|
  {
    if details != [] {
      KeptDetailsAreGood(w, details[..|details| - 1]);
      var last := details[|details| - 1];
      assert w.trim(w.trim(last)) == w.trim(last);
    }
  }

  lemma {:induction false} GoodDetailsAreKept(w: Workspace, details: seq<string>)
    requires GoodDetails(w, details)
    ensures KeptDetails(w, details) == details
    decreases |details|
  {
    if details != [] {
      var rest, last := details[..|details| - 1], details[|details| - 1];
      GoodDetailsAreKept(w, rest);
      assert last in details && rest + [last] == details;
    }
  }

  predicate TextIsCanonical(w: Workspace, a: Analysis) {
    && a.summary != "" && w.trim(a.summary) == a.summary && FitsText(w, a.summary, MAX_SUMMARY)
    && a.rootCause != "" && w.trim(a.rootCause) == a.rootCause && FitsText(w, a.rootCause, MAX_ROOT_CAUSE)
    && w.trim(a.severity) == a.severity && KnownSeverity(a.severity) && a.isTransient == (a.severity == "Transient-Ignore")
    && w.trim(a.suggestedFix) == a.suggestedFix && FitsText(w, a.suggestedFix, MAX_SUGGESTED_FIX)
    && GoodDetails(w, a.unresolved)
  }

  /** Trimming, decoding and measuring the empty string give nothing away. */
  ghost predicate PlainText(w: Workspace) {
    TrimsOnce(w.trim) && w.trim("") == "" && w.isUtf8("")
  }

  lemma CanonicalTextSettles(w: Workspace, a: Analysis)
    requires PlainText(w) && CanonicalText(w, a).Success?
    ensures TextIsCanonical(w, CanonicalText(w, a).value.value)
  {
    KeptDetailsAreGood(w, a.unresolved);
    assert w.trim(w.trim(a.summary)) == w.trim(a.summary) && w.trim(w.trim(a.rootCause)) == w.trim(a.rootCause);
    assert w.trim(w.trim(a.severity)) == w.trim(a.severity) && w.trim(w.trim(a.suggestedFix)) == w.trim(a.suggestedFix);
  }

  lemma CanonicalTextIsFixed(w: Workspace, a: Analysis)
    requires PlainText(w)
    ensures TextIsCanonical(w, a) <==> CanonicalText(w, a) == Success(Warned(a, {}))
  {
    if TextIsCanonical(w, a) {
      GoodDetailsAreKept(w, a.unresolved);
      assert WarnIf(false, InvalidText) + WarnIf(false, InvalidClassification) == {};
    }
    if CanonicalText(w, a) == Success(Warned(a, {})) { CanonicalTextSettles(w, a); }
  }

  // ------------------------------------------------------------------ relevant files

  /** Which file identities verified source citations point at; the last citation of a file decides. */
  function Grounded(w: Workspace, cs: seq<Citation>): Result<map<string, bool>, Code> {
    if cs == [] then Success(map[])
    else
      match Grounded(w, cs[..|cs| - 1])
      case Failure(code) => Failure(code)
      case Success(g) =>
        match w.identity(cs[|cs| - 1].path)
        case None => Failure(SourcePath)
        case Some(identity) => Success(g[identity := cs[|cs| - 1].verified])
  }

  predicate IsGrounded(g: map<string, bool>, identity: string) {
    identity in g && g[identity]
  }

  function Identities(w: Workspace, files: seq<string>): set<Option<string>> {
    set file | file in files :: w.identity(file)
  }

  function GatherFiles(w: Workspace, g: map<string, bool>, files: seq<string>): Result<Warned<seq<string>>, Code> {
    if files == [] then Success(Warned([], {}))
    else
      match GatherFiles(w, g, files[..|files| - 1])
      case Failure(code) => Failure(code)
      case Success(kept) =>
        var file := w.trim(files[|files| - 1]);
        if !w.isSafe(file) || w.identity(file).None? then Failure(InvalidRelevantFile)
        else if w.identity(file) in Identities(w, kept.value) || !IsGrounded(g, w.identity(file).value) || |kept.value| == MAX_RELEVANT_FILES
        then Success(kept.(warnings := kept.warnings + {InvalidRelevantFile}))
        else Success(kept.(value := kept.value + [file]))
  }

  function RelevantFiles(w: Workspace, files: seq<string>, cs: seq<Citation>): Result<Warned<seq<string>>, Code> {
    match Grounded(w, cs)
    case Failure(code) => Failure(code)
    case Success(g) =>
      match GatherFiles(w, g, files)
      case Failure(code) => Failure(code)
      case Success(kept) =>
        Success(Warned(Sort(AtMost, kept.value), kept.warnings + WarnIf(|files| > MAX_RELEVANT_FILES, InvalidRelevantFile)))
  }

  lemma {:induction false} GroundedFails(w: Workspace, cs: seq<Citation>, k: nat)
    requires k <= |cs| && Grounded(w, cs[..k]).Failure?
    ensures Grounded(w, cs) == Grounded(w, cs[..k])
    decreases |cs|
  {
    if k < |cs| {
      assert cs[..|cs| - 1][..k] == cs[..k];
      GroundedFails(w, cs[..|cs| - 1], k);
    } else {
      assert cs[..k] == cs;
    }
  }

  lemma {:induction false} GatherFilesFails(w: Workspace, g: map<string, bool>, files: seq<string>, k: nat)
    requires k <= |files| && GatherFiles(w, g, files[..k]).Failure?
    ensures GatherFiles(w, g, files) == GatherFiles(w, g, files[..k])
    decreases |files|
  {
    if k < |files| {
      assert files[..|files| - 1][..k] == files[..k];
      GatherFilesFails(w, g, files[..|files| - 1], k);
    } else {
      assert files[..k] == files;
    }
  }

  method GroundCitations(w: Workspace, cs: seq<Citation>) returns (result: Result<map<string, bool>, Code>)
    ensures result == Grounded(w, cs)
  {
    var grounded: map<string, bool> := map[];
    for k := 0 to |cs|
      invariant Grounded(w, cs[..k]) == Success(grounded)
    {
      assert cs[..k + 1][..k] == cs[..k];
      var identity := w.identity(cs[k].path);
      if identity.None? {
        GroundedFails(w, cs, k + 1);
        return Failure(SourcePath);
      }
      grounded := grounded[identity.value := cs[k].verified];
    }
    assert cs[..|cs|] == cs;
    result := Success(grounded);
  }

  lemma GatherOneFile(w: Workspace, g: map<string, bool>, files: seq<string>, k: nat)
    requires k < |files| && GatherFiles(w, g, files[..k]).Success?
    ensures var kept, file := GatherFiles(w, g, files[..k]).value, w.trim(files[k]);
            GatherFiles(w, g, files[..k + 1]) ==
            if !w.isSafe(file) || w.identity(file).None? then Failure(InvalidRelevantFile)
            else if w.identity(file) in Identities(w, kept.value) || !IsGrounded(g, w.identity(file).value) || |kept.value| == MAX_RELEVANT_FILES
            then Success(kept.(warnings := kept.warnings + {InvalidRelevantFile}))
            else Success(kept.(value := kept.value + [file]))
  {
    assert files[..k + 1][..k] == files[..k];
  }

  lemma OneMoreIdentity(w: Workspace, out: seq<string>, file: string)
    ensures Identities(w, out + [file]) == Identities(w, out) + {w.identity(file)}
  {
    assert forall f :: f in out + [file] <==> f in out || f == file;
  }

  /** workspaceRelevantFiles. */
  method FindRelevantFiles(w: Workspace, files: seq<string>, cs: seq<Citation>) returns (result: Result<Warned<seq<string>>, Code>)
    ensures result == RelevantFiles(w, files, cs)
  {
    var grounded := GroundCitations(w, cs);
    if grounded.Failure? { return Failure(grounded.error); }
    var kept := KeepFiles(w, grounded.value, files);
    if kept.Failure? { return Failure(kept.error); }
    var warnings := kept.value.warnings;
    if |files| > MAX_RELEVANT_FILES { warnings := warnings + {InvalidRelevantFile}; }
    assert warnings == kept.value.warnings + WarnIf(|files| > MAX_RELEVANT_FILES, InvalidRelevantFile);
    result := Success(Warned(Sort(AtMost, kept.value.value), warnings));
  }

  method KeepFiles(w: Workspace, grounded: map<string, bool>, files: seq<string>) returns (result: Result<Warned<seq<string>>, Code>)
    ensures result == GatherFiles(w, grounded, files)
  {
    var warnings: set<Code>, out: seq<string>, seen: set<Option<string>> := {}, [], {};
    for k := 0 to |files|
      invariant GatherFiles(w, grounded, files[..k]) == Success(Warned(out, warnings)) && seen == Identities(w, out)
    {
      GatherOneFile(w, grounded, files, k);
      var file := w.trim(files[k]);
      if !w.isSafe(file) || w.identity(file).None? {
        GatherFilesFails(w, grounded, files, k + 1);
        return Failure(InvalidRelevantFile);
      }
      var identity := w.identity(file);
      if identity in seen || !IsGrounded(grounded, identity.value) || |out| == MAX_RELEVANT_FILES {
        warnings := warnings + {InvalidRelevantFile};
      } else {
        OneMoreIdentity(w, out, file);
        seen, out := seen + {identity}, out + [file];
      }
    }
    assert files[..|files|] == files;
    result := Success(Warned(out, warnings));
  }

  predicate GoodFile(w: Workspace, g: map<string, bool>, file: string) {
    w.trim(file) == file && w.isSafe(file) && w.identity(file).Some? && IsGrounded(g, w.identity(file).value)
  }

  predicate DistinctFiles(w: Workspace, files: seq<string>) {
    forall i, j :: 0 <= i < j < |files| ==> w.identity(files[i]) != w.identity(files[j])
  }

  predicate GoodFiles(w: Workspace, g: map<string, bool>, files: seq<string>) {
    |files| <= MAX_RELEVANT_FILES && DistinctFiles(w, files) && forall file :: file in files ==> GoodFile(w, g, file)
  }

  lemma {:induction false} GatheredFilesAreGood(w: Workspace, g: map<string, bool>, files: seq<string>)
    requires TrimsOnce(w.trim) && GatherFiles(w, g, files).Success?
    ensures GoodFiles(w, g, GatherFiles(w, g, files).value.value)
    decreases |files|
  {
    if files != [] {
      var rest, last := files[..|files| - 1], w.trim(files[|files| - 1]);
      GatheredFilesAreGood(w, g, rest);
      var kept := GatherFiles(w, g, rest).value.value;
      assert w.trim(last) == last;
      if GatherFiles(w, g, files).value.value == kept + [last] { AddGoodFile(w, g, kept, last); }
    }
  }

  lemma AddGoodFile(w: Workspace, g: map<string, bool>, kept: seq<string>, file: string)
    requires GoodFiles(w, g, kept) && |kept| < MAX_RELEVANT_FILES
    ensures GoodFile(w, g, file) && w.identity(file) !in Identities(w, kept) ==> GoodFiles(w, g, kept + [file])
  {
    var longer := kept + [file];
    if GoodFile(w, g, file) && w.identity(file) !in Identities(w, kept) {
      forall i, j | 0 <= i < j < |longer| ensures w.identity(longer[i]) != w.identity(longer[j]) {
        if j == |kept| { assert kept[i] in kept; }
      }
    }
  }

  lemma {:induction false} GoodFilesAreKept(w: Workspace, g: map<string, bool>, files: seq<string>)
    requires GoodFiles(w, g, files)
    ensures GatherFiles(w, g, files) == Success(Warned(files, {}))
    decreases |files|
  {
    if files != [] {
      var rest, last := files[..|files| - 1], files[|files| - 1];
      GoodFilesAreKept(w, g, rest);
      assert last in files && rest + [last] == files;
      assert w.identity(last) !in Identities(w, rest);
    }
  }

  lemma GoodFilesPermute(w: Workspace, g: map<string, bool>, s: seq<string>, t: seq<string>)
    requires GoodFiles(w, g, s) && multiset(s) == multiset(t)
    ensures GoodFiles(w, g, t)
  {
    MembersOfPermutation(s, t);
    DistinctPermutation(s, t);
    forall i, j | 0 <= i < j < |t| ensures w.identity(t[i]) != w.identity(t[j]) {
      assert t[i] in s && t[j] in s && t[i] != t[j];
      var a :| 0 <= a < |s| && s[a] == t[i];
      var b :| 0 <= b < |s| && s[b] == t[j];
      if a < b { assert w.identity(s[a]) != w.identity(s[b]); } else { assert w.identity(s[b]) != w.identity(s[a]); }
    }
  }

  ghost predicate FilesAreCanonical(w: Workspace, files: seq<string>, cs: seq<Citation>) {
    Grounded(w, cs).Success? && GoodFiles(w, Grounded(w, cs).value, files) && Sorted(AtMost, files)
  }

  lemma RelevantFilesSettle(w: Workspace, files: seq<string>, cs: seq<Citation>)
    requires TrimsOnce(w.trim) && RelevantFiles(w, files, cs).Success?
    ensures FilesAreCanonical(w, RelevantFiles(w, files, cs).value.value, cs)
  {
    var g := Grounded(w, cs).value;
    var kept := GatherFiles(w, g, files).value.value;
    GatheredFilesAreGood(w, g, files);
    AtMostIsPreorder();
    SortSorts(AtMost, kept);
    GoodFilesPermute(w, g, kept, Sort(AtMost, kept));
  }

  lemma RelevantFilesAreFixed(w: Workspace, files: seq<string>, cs: seq<Citation>)
    requires TrimsOnce(w.trim)
    ensures FilesAreCanonical(w, files, cs) <==> RelevantFiles(w, files, cs) == Success(Warned(files, {}))
  {
    if FilesAreCanonical(w, files, cs) {
      GoodFilesAreKept(w, Grounded(w, cs).value, files);
      SortOfSorted(AtMost, files);
      assert {} + WarnIf(false, InvalidRelevantFile) == {};
    }
    if RelevantFiles(w, files, cs) == Success(Warned(files, {})) { RelevantFilesSettle(w, files, cs); }
  }

  // ------------------------------------------------------------------ the whole analysis

  datatype Outcome = Canonical(analysis: Analysis, warnings: set<Code>) | Refused(code: Code) | BadManifest

  function Canonicalize(w: Workspace, a: Analysis, requireCanonical: bool): Outcome {
    if !w.manifestValid then BadManifest
    else
      match CanonicalText(w, a)
      case Failure(code) => Outcome.Refused(code)
      case Success(text) =>
        match Verify(ArtifactRules(w), text.value.evidence, requireCanonical)
        case Failure(code) => Outcome.Refused(code)
        case Success(evidence) =>
          match Verify(SourceRules(w), text.value.sources, requireCanonical)
          case Failure(code) => Outcome.Refused(code)
          case Success(sources) =>
            match RelevantFiles(w, text.value.relevantFiles, sources.out)
            case Failure(code) => Outcome.Refused(code)
            case Success(files) =>
              Canonical(text.value.(evidence := evidence.out, sources := sources.out, relevantFiles := files.value),
                        text.warnings + evidence.warnings + sources.warnings + files.warnings)
  }

  /** canonicalizeWorkspaceAnalysisWithWarnings: the canonical analysis if there is one, and the outcome
      to report (an empty one when the manifest itself is invalid). */
  method CanonicalizeAnalysis(w: Workspace, a: Analysis, requireCanonical: bool, warnings: set<Code>)
    returns (analysis: Option<Analysis>, validation: Validation)
    ensures match Canonicalize(w, a, requireCanonical)
            case BadManifest => analysis == None && validation == Validation(NoStatus, [])
            case Refused(code) => analysis == None && validation == RejectedResult(code)
            case Canonical(canonical, found) => analysis == Some(canonical) && validation == AcceptedResult(Names(warnings + found))
  {
    if !w.manifestValid { return None, Validation(NoStatus, []); }
    var text := CanonicalizeText(w, a);
    if text.Failure? { return None, RejectedResult(text.error); }
    var result := text.value.value;
    var evidence := VerifyCitations(ArtifactRules(w), result.evidence, requireCanonical);
    if evidence.Failure? { return None, RejectedResult(evidence.error); }
    var sources := VerifyCitations(SourceRules(w), result.sources, requireCanonical);
    if sources.Failure? { return None, RejectedResult(sources.error); }
    var files := FindRelevantFiles(w, result.relevantFiles, sources.value.out);
    if files.Failure? { return None, RejectedResult(files.error); }
    result := result.(evidence := evidence.value.out, sources := sources.value.out, relevantFiles := files.value.value);
    var found := text.value.warnings + evidence.value.warnings + sources.value.warnings + files.value.warnings;
    analysis := Some(result);
    validation := AcceptResult(Names(warnings + found));
  }

  /** The analyses that stand as they are. */
  ghost predicate IsCanonical(w: Workspace, a: Analysis) {
    && w.manifestValid && TextIsCanonical(w, a)
    && CanonicalCitations(ArtifactRules(w), a.evidence) && CanonicalCitations(SourceRules(w), a.sources)
    && FilesAreCanonical(w, a.relevantFiles, a.sources)
  }

  /** Whatever is accepted, with or without warnings and in either mode, is canonical: its citations
      are sorted, checked against the files, and pairwise disjoint per file. */
  lemma AcceptedIsCanonical(w: Workspace, a: Analysis, requireCanonical: bool)
    requires PlainText(w) && Canonicalize(w, a, requireCanonical).Canonical?
    ensures IsCanonical(w, Canonicalize(w, a, requireCanonical).analysis)
  {
    var text := CanonicalText(w, a).value.value;
    CanonicalTextSettles(w, a);
    VerifiedIsCanonical(ArtifactRules(w), text.evidence, requireCanonical);
    VerifiedIsCanonical(SourceRules(w), text.sources, requireCanonical);
    RelevantFilesSettle(w, text.relevantFiles, Verify(SourceRules(w), text.sources, requireCanonical).value.out);
  }

  /** Strict canonicalization returns an analysis unchanged and without warnings exactly when it is
      canonical. */
  lemma FixedPointsAreCanonical(w: Workspace, a: Analysis)
    requires PlainText(w)
    ensures Canonicalize(w, a, true) == Canonical(a, {}) <==> IsCanonical(w, a)
  {
    if IsCanonical(w, a) {
      CanonicalTextIsFixed(w, a);
      CanonicalIsFixedPoint(ArtifactRules(w), a.evidence);
      CanonicalIsFixedPoint(SourceRules(w), a.sources);
      RelevantFilesAreFixed(w, a.relevantFiles, a.sources);
    }
    if Canonicalize(w, a, true) == Canonical(a, {}) { AcceptedIsCanonical(w, a, true); }
  }

  /** What the executor accepted, the host's strict check returns as it is, with no warnings. */
  lemma RevalidationChangesNothing(w: Workspace, a: Analysis, requireCanonical: bool)
    requires PlainText(w) && Canonicalize(w, a, requireCanonical).Canonical?
    ensures var accepted := Canonicalize(w, a, requireCanonical).analysis;
            Canonicalize(w, accepted, true) == Canonical(accepted, {})
  {
    var accepted := Canonicalize(w, a, requireCanonical).analysis;
    AcceptedIsCanonical(w, a, requireCanonical);
    FixedPointsAreCanonical(w, accepted);
  }

  /** So merging the two outcomes leaves the executor's. */
  lemma MergeKeepsFirstOutcome(warnings: set<Code>)
    ensures var first, second := AcceptedResult(Names(warnings)), AcceptedResult(Names({}));
            AcceptedResult(NamesIn(first) + NamesIn(second)) == first
  {
    MergeIsUnion(Names(warnings), Names({}));
    assert Names({}) == {} && Names(warnings) + {} == Names(warnings);
  }
}
