/** What an accepted analysis says, which warnings come with it, and why one is refused. */
module AnalysisOutcome {
  import opened Wrappers
  import opened Order
  import opened ResultValidation
  import opened Citations
  import opened WorkspaceAnalysis
  import opened AnalysisMeaning

  // ------------------------------------------------------------------ text

  predicate Usable(w: Workspace, text: string, limit: nat) {
    w.isUtf8(text) && |text| <= limit
  }

  predicate NeededText(w: Workspace, a: Analysis) {
    && w.trim(a.summary) != "" && Usable(w, w.trim(a.summary), 2048)
    && w.trim(a.rootCause) != "" && Usable(w, w.trim(a.rootCause), 24576)
  }

  predicate IsSeverity(severity: string) {
    severity == "Critical" || severity == "High" || severity == "Medium" || severity == "Low" || severity == "Transient-Ignore"
  }

  /** Without a usable summary and root cause the text is refused, and then without one of the five
      severities the classification is; anything else is at most warned of. */
  lemma TextRefusalIsExact(w: Workspace, a: Analysis)
    ensures CanonicalText(w, a).Success? <==> NeededText(w, a) && IsSeverity(w.trim(a.severity))
    ensures CanonicalText(w, a).Failure? ==>
              CanonicalText(w, a).error == if NeededText(w, a) then InvalidClassification else InvalidText
  {
  }

  function Trimmed(w: Workspace, texts: seq<string>): seq<string> {
    seq(|texts|, i requires 0 <= i < |texts| => w.trim(texts[i]))
  }

  lemma PickedMore<T>(from: seq<T>, at: seq<nat>, out: seq<T>, x: T)
    requires Picked(from, at, out)
    ensures Picked(from + [x], at, out) && Picked(from + [x], at + [|from|], out + [x])
  {
  }

  predicate DetailFits(w: Workspace, detail: string) {
    detail != "" && Usable(w, detail, 4096)
  }

  /** A detail is kept if it is usable, trimmed and not blank, up to the first twenty. */
  ghost predicate DetailsKept(w: Workspace, details: seq<string>, kept: seq<string>, at: seq<nat>, fits: seq<bool>) {
    && |fits| == |details| && Picks(at, fits, 20) && Picked(Trimmed(w, details), at, kept)
    && forall k :: 0 <= k < |details| ==> (fits[k] <==> DetailFits(w, w.trim(details[k])))
  }

  lemma FitsOneMoreDetail(w: Workspace, details: seq<string>, fits: seq<bool>, detail: string)
    requires |fits| == |details| && forall k :: 0 <= k < |details| ==> (fits[k] <==> DetailFits(w, w.trim(details[k])))
    ensures forall k :: 0 <= k < |details + [detail]| ==>
              ((fits + [DetailFits(w, w.trim(detail))])[k] <==> DetailFits(w, w.trim((details + [detail])[k])))
  {
  }

  lemma KeepOneDetail(w: Workspace, details: seq<string>, kept: seq<string>, at: seq<nat>, fits: seq<bool>, detail: string)
    requires DetailsKept(w, details, kept, at, fits)
    ensures var fit := DetailFits(w, w.trim(detail));
            if fit && |at| < 20 then DetailsKept(w, details + [detail], kept + [w.trim(detail)], at + [|details|], fits + [fit])
            else DetailsKept(w, details + [detail], kept, at, fits + [fit])
  {
    var fit := DetailFits(w, w.trim(detail));
    PickOne(at, fits, 20, fit);
    FitsOneMoreDetail(w, details, fits, detail);
    PickedMore(Trimmed(w, details), at, kept, w.trim(detail));
    TrimmedMore(w, details, detail);
  }

  lemma TrimmedMore(w: Workspace, texts: seq<string>, text: string)
    ensures Trimmed(w, texts + [text]) == Trimmed(w, texts) + [w.trim(text)]
    ensures |Trimmed(w, texts)| == |texts|
  {
  }

  lemma OneMoreDetail(w: Workspace, details: seq<string>, detail: string)
    ensures KeptDetails(w, details + [detail]) ==
            if DetailFits(w, w.trim(detail)) && |KeptDetails(w, details)| < 20 then KeptDetails(w, details) + [w.trim(detail)]
            else KeptDetails(w, details)
  {
    var longer := details + [detail];
    assert longer[..|longer| - 1] == details && longer[|longer| - 1] == detail;
  }

  lemma {:induction false} KeptDetailsAreExact(w: Workspace, details: seq<string>) returns (at: seq<nat>, fits: seq<bool>)
    ensures DetailsKept(w, details, KeptDetails(w, details), at, fits)
    decreases |details|
  {
    if details == [] {
      at, fits := [], [];
    } else {
      var rest, last := details[..|details| - 1], details[|details| - 1];
      at, fits := KeptDetailsAreExact(w, rest);
      assert rest + [last] == details;
      at, fits := KeepLastDetail(w, rest, at, fits, last);
    }
  }

  lemma KeepLastDetail(w: Workspace, details: seq<string>, at: seq<nat>, fits: seq<bool>, detail: string)
    returns (at': seq<nat>, fits': seq<bool>)
    requires DetailsKept(w, details, KeptDetails(w, details), at, fits)
    ensures DetailsKept(w, details + [detail], KeptDetails(w, details + [detail]), at', fits')
  {
    KeepOneDetail(w, details, KeptDetails(w, details), at, fits, detail);
    OneMoreDetail(w, details, detail);
    var fit := DetailFits(w, w.trim(detail));
    at', fits' := if fit && |at| < 20 then at + [|details|] else at, fits + [fit];
  }

  /** What is published of the text: everything trimmed, an unusable fix left out, the transient mark
      following the severity, and the details kept. */
  ghost predicate PublishesText(w: Workspace, a: Analysis, b: Analysis) {
    && b.summary == w.trim(a.summary) && b.rootCause == w.trim(a.rootCause) && b.severity == w.trim(a.severity)
    && b.suggestedFix == (if Usable(w, w.trim(a.suggestedFix), 12288) then w.trim(a.suggestedFix) else "")
    && (b.isTransient <==> b.severity == "Transient-Ignore")
    && exists at, fits :: DetailsKept(w, a.unresolved, b.unresolved, at, fits)
  }

  /** A fix or a detail was left out. */
  predicate LosesText(w: Workspace, a: Analysis, b: Analysis) {
    !Usable(w, w.trim(a.suggestedFix), 12288) || |b.unresolved| < |a.unresolved|
  }

  lemma TextIsExact(w: Workspace, a: Analysis)
    requires CanonicalText(w, a).Success?
    ensures var Warned(b, warnings) := CanonicalText(w, a).value;
            && PublishesText(w, a, b) && b.evidence == a.evidence && b.sources == a.sources && b.relevantFiles == a.relevantFiles
            && forall code :: code in warnings <==>
                 || (code == InvalidText && LosesText(w, a, b))
                 || (code == InvalidClassification && a.isTransient != b.isTransient)
  {
    var at, fits := KeptDetailsAreExact(w, a.unresolved);
  }

  // ------------------------------------------------------------------ relevant files

  /** The last citation of that file carries the verified mark. */
  ghost predicate CitedLast(w: Workspace, cs: seq<Citation>, identity: string, k: nat) {
    && k < |cs| && w.identity(cs[k].path) == Some(identity) && cs[k].verified
    && forall j :: k < j < |cs| ==> w.identity(cs[j].path) != Some(identity)
  }

  ghost predicate IsCited(w: Workspace, cs: seq<Citation>, identity: string) {
    exists k: nat :: CitedLast(w, cs, identity, k)
  }

  lemma {:induction false} GroundedMeansCited(w: Workspace, cs: seq<Citation>)
    ensures Grounded(w, cs).Success? <==> forall k :: 0 <= k < |cs| ==> w.identity(cs[k].path).Some?
    ensures Grounded(w, cs).Failure? ==> Grounded(w, cs).error == SourcePath
    ensures Grounded(w, cs).Success? ==> forall identity :: IsGrounded(Grounded(w, cs).value, identity) <==> IsCited(w, cs, identity)
    decreases |cs|
  {
    if cs != [] {
      var rest, last := cs[..|cs| - 1], |cs| - 1;
      GroundedMeansCited(w, rest);
      assert forall k :: 0 <= k < last ==> rest[k] == cs[k];
      if Grounded(w, cs).Success? {
        forall identity ensures IsGrounded(Grounded(w, cs).value, identity) <==> IsCited(w, cs, identity) {
          CitedOneMore(w, cs, identity);
        }
      }
    }
  }

  lemma CitedOneMore(w: Workspace, cs: seq<Citation>, identity: string)
    requires cs != []
    ensures IsCited(w, cs, identity) <==>
              if w.identity(cs[|cs| - 1].path) == Some(identity) then cs[|cs| - 1].verified else IsCited(w, cs[..|cs| - 1], identity)
  {
    var rest, last := cs[..|cs| - 1], |cs| - 1;
    assert forall k :: 0 <= k < last ==> rest[k] == cs[k];
    if w.identity(cs[last].path) == Some(identity) {
      if cs[last].verified { assert CitedLast(w, cs, identity, last); }
    } else {
      forall k: nat ensures CitedLast(w, cs, identity, k) <==> CitedLast(w, rest, identity, k) {}
    }
  }

  /** File k is an earlier one that was kept, under whatever name. */
  ghost predicate NamesKept(w: Workspace, files: seq<string>, at: seq<nat>, k: nat)
    requires k < |files|
  {
    exists j: nat :: j in at && j < k && j < |files| && w.identity(w.trim(files[j])) == w.identity(w.trim(files[k]))
  }

  ghost predicate FileFits(w: Workspace, files: seq<string>, cs: seq<Citation>, at: seq<nat>, k: nat)
    requires k < |files|
  {
    && !NamesKept(w, files, at, k) && w.identity(w.trim(files[k])).Some?
    && IsCited(w, cs, w.identity(w.trim(files[k])).value)
  }

  ghost predicate FitsFiles(w: Workspace, files: seq<string>, cs: seq<Citation>, at: seq<nat>, fits: seq<bool>) {
    |fits| == |files| && forall k: nat :: k < |files| ==> (fits[k] <==> FileFits(w, files, cs, at, k))
  }

  /** Kept are the files that a source citation quotes, each once, up to twenty. */
  ghost predicate FilesKept(w: Workspace, files: seq<string>, cs: seq<Citation>, kept: seq<string>, at: seq<nat>, fits: seq<bool>) {
    FitsFiles(w, files, cs, at, fits) && Picks(at, fits, 20) && Picked(Trimmed(w, files), at, kept)
  }

  lemma KeptIdentities(w: Workspace, files: seq<string>, kept: seq<string>, at: seq<nat>, file: string)
    requires Picked(Trimmed(w, files), at, kept)
    ensures w.identity(w.trim(file)) in Identities(w, kept) <==> NamesKept(w, files + [file], at, |files|)
  {
    var longer := files + [file];
    if w.identity(w.trim(file)) in Identities(w, kept) {
      var k :| k in kept && w.identity(k) == w.identity(w.trim(file));
      var n :| 0 <= n < |kept| && kept[n] == k;
      assert at[n] in at && longer[at[n]] == files[at[n]];
    }
    if NamesKept(w, longer, at, |files|) {
      var j: nat :| j in at && j < |files| && w.identity(w.trim(longer[j])) == w.identity(w.trim(longer[|files|]));
      var n :| 0 <= n < |at| && at[n] == j;
      assert kept[n] in kept && longer[j] == files[j];
    }
  }

  lemma NamesKeptStays(w: Workspace, files: seq<string>, at: seq<nat>, file: string, k: nat)
    requires k < |files|
    ensures NamesKept(w, files + [file], at, k) == NamesKept(w, files, at, k) == NamesKept(w, files + [file], at + [|files|], k)
  {
    assert forall j :: j in at + [|files|] <==> j in at || j == |files|;
    assert forall j :: 0 <= j < |files| ==> (files + [file])[j] == files[j];
  }

  lemma FitsOneMoreFile(w: Workspace, files: seq<string>, cs: seq<Citation>, at: seq<nat>, fits: seq<bool>, file: string, picked: bool)
    requires FitsFiles(w, files, cs, at, fits)
    ensures var longer := files + [file];
            FitsFiles(w, longer, cs, if picked then at + [|files|] else at, fits + [FileFits(w, longer, cs, at, |files|)])
  {
    var longer := files + [file];
    assert forall j :: j in at + [|files|] <==> j in at || j == |files|;
    assert NamesKept(w, longer, at + [|files|], |files|) == NamesKept(w, longer, at, |files|);
    forall k: nat | k < |files|
      ensures FileFits(w, longer, cs, at, k) == FileFits(w, files, cs, at, k) == FileFits(w, longer, cs, at + [|files|], k)
    {
      NamesKeptStays(w, files, at, file, k);
      assert longer[k] == files[k];
    }
  }

  lemma KeepOneFile(w: Workspace, files: seq<string>, cs: seq<Citation>, kept: seq<string>, at: seq<nat>, fits: seq<bool>, file: string)
    requires FilesKept(w, files, cs, kept, at, fits)
    ensures var longer := files + [file];
            var fit := FileFits(w, longer, cs, at, |files|);
            if fit && |at| < 20 then FilesKept(w, longer, cs, kept + [w.trim(file)], at + [|files|], fits + [fit])
            else FilesKept(w, longer, cs, kept, at, fits + [fit])
  {
    var fit := FileFits(w, files + [file], cs, at, |files|);
    PickOne(at, fits, 20, fit);
    PickedMore(Trimmed(w, files), at, kept, w.trim(file));
    TrimmedMore(w, files, file);
    FitsOneMoreFile(w, files, cs, at, fits, file, fit && |at| < 20);
  }

  /** Every file name must be safe and denote a file. */
  predicate NamesFile(w: Workspace, file: string) {
    w.isSafe(w.trim(file)) && w.identity(w.trim(file)).Some?
  }

  lemma GatherOne(w: Workspace, g: map<string, bool>, files: seq<string>, cs: seq<Citation>, kept: Warned<seq<string>>, at: seq<nat>, file: string)
    requires forall identity :: IsGrounded(g, identity) <==> IsCited(w, cs, identity)
    requires GatherFiles(w, g, files) == Success(kept) && Picked(Trimmed(w, files), at, kept.value) && |at| <= 20
    ensures GatherFiles(w, g, files + [file]) ==
            if !NamesFile(w, file) then Failure(InvalidRelevantFile)
            else if FileFits(w, files + [file], cs, at, |files|) && |at| < 20 then Success(kept.(value := kept.value + [w.trim(file)]))
            else Success(kept.(warnings := kept.warnings + {InvalidRelevantFile}))
  {
    var longer := files + [file];
    assert longer[..|files|] == files && longer[..|files| + 1] == longer;
    GatherOneFile(w, g, longer, |files|);
    KeptIdentities(w, files, kept.value, at, file);
    if NamesFile(w, file) {
      var identity := w.identity(w.trim(file));
      assert IsGrounded(g, identity.value) <==> IsCited(w, cs, identity.value);
      assert FileFits(w, longer, cs, at, |files|) <==> identity !in Identities(w, kept.value) && IsGrounded(g, identity.value);
    }
  }

  lemma {:induction false} GatherFilesRefuses(w: Workspace, g: map<string, bool>, files: seq<string>)
    ensures GatherFiles(w, g, files).Success? <==> forall k :: 0 <= k < |files| ==> NamesFile(w, files[k])
    ensures GatherFiles(w, g, files).Failure? ==> GatherFiles(w, g, files).error == InvalidRelevantFile
    decreases |files|
  {
    if files != [] {
      var rest, last := files[..|files| - 1], |files| - 1;
      GatherFilesRefuses(w, g, rest);
      assert forall k :: 0 <= k < last ==> rest[k] == files[k];
    }
  }

  /** The files kept, and a warning if some were not. */
  ghost predicate FilesExplained(w: Workspace, files: seq<string>, cs: seq<Citation>, kept: Warned<seq<string>>, at: seq<nat>, fits: seq<bool>) {
    FilesKept(w, files, cs, kept.value, at, fits) && kept.warnings == WarnIf(|at| < |files|, InvalidRelevantFile)
  }

  lemma ExplainOne(w: Workspace, g: map<string, bool>, files: seq<string>, cs: seq<Citation>, at: seq<nat>, fits: seq<bool>, file: string)
    returns (at': seq<nat>, fits': seq<bool>)
    requires forall identity :: IsGrounded(g, identity) <==> IsCited(w, cs, identity)
    requires GatherFiles(w, g, files).Success? && GatherFiles(w, g, files + [file]).Success?
    requires FilesExplained(w, files, cs, GatherFiles(w, g, files).value, at, fits)
    ensures FilesExplained(w, files + [file], cs, GatherFiles(w, g, files + [file]).value, at', fits')
  {
    var kept := GatherFiles(w, g, files).value;
    KeepOneFile(w, files, cs, kept.value, at, fits, file);
    GatherOne(w, g, files, cs, kept, at, file);
    PicksAreFew(at, fits, 20);
    var fit := FileFits(w, files + [file], cs, at, |files|);
    at', fits' := if fit && |at| < 20 then at + [|files|] else at, fits + [fit];
  }

  lemma {:induction false} GatherFilesIsExact(w: Workspace, g: map<string, bool>, files: seq<string>, cs: seq<Citation>)
    returns (at: seq<nat>, fits: seq<bool>)
    requires forall identity :: IsGrounded(g, identity) <==> IsCited(w, cs, identity)
    requires GatherFiles(w, g, files).Success?
    ensures FilesExplained(w, files, cs, GatherFiles(w, g, files).value, at, fits)
    decreases |files|
  {
    at, fits := [], [];
    if files != [] {
      var rest := files[..|files| - 1];
      at, fits := GatherFilesIsExact(w, g, rest, cs);
      assert rest + [files[|files| - 1]] == files;
      at, fits := ExplainOne(w, g, rest, cs, at, fits, files[|files| - 1]);
    }
  }

  lemma PicksAreFew(at: seq<nat>, fits: seq<bool>, limit: nat)
    requires Picks(at, fits, limit)
    ensures |at| <= |fits|
  {
    if at != [] {
      RisingIndices(at, |at| - 1);
      assert at[|at| - 1] in at;
    }
  }

  lemma {:induction false} RisingIndices(at: seq<nat>, n: nat)
    requires n < |at| && forall i, j :: 0 <= i < j < |at| ==> at[i] < at[j]
    ensures at[n] >= n
  {
    if n > 0 { RisingIndices(at, n - 1); }
  }

  /** The relevant files published are the kept ones in byte order; one that was left out is warned of. */
  ghost predicate PublishesFiles(w: Workspace, files: seq<string>, cs: seq<Citation>, out: seq<string>, warned: bool) {
    && (forall i, j :: 0 <= i < j < |out| ==> out[i] == out[j] || Less(out[i], out[j]))
    && exists kept, at, fits :: FilesKept(w, files, cs, kept, at, fits) && multiset(kept) == multiset(out) && (warned <==> |at| < |files|)
  }

  lemma RelevantFilesAreExact(w: Workspace, files: seq<string>, cs: seq<Citation>)
    requires forall k :: 0 <= k < |cs| ==> w.identity(cs[k].path).Some?
    ensures RelevantFiles(w, files, cs).Success? <==> forall k :: 0 <= k < |files| ==> NamesFile(w, files[k])
    ensures RelevantFiles(w, files, cs).Failure? ==> RelevantFiles(w, files, cs).error == InvalidRelevantFile
    ensures RelevantFiles(w, files, cs).Success? ==>
              var Warned(out, warnings) := RelevantFiles(w, files, cs).value;
              && PublishesFiles(w, files, cs, out, InvalidRelevantFile in warnings) && (forall code :: code in warnings ==> code == InvalidRelevantFile)
  {
    GroundedMeansCited(w, cs);
    var g := Grounded(w, cs).value;
    GatherFilesRefuses(w, g, files);
    if RelevantFiles(w, files, cs).Success? {
      var at, fits := GatherFilesIsExact(w, g, files, cs);
      PicksAreFew(at, fits, 20);
      var kept := GatherFiles(w, g, files).value.value;
      AtMostIsPreorder();
      SortSorts(AtMost, kept);
      assert FilesKept(w, files, cs, kept, at, fits);
    }
  }

  // ------------------------------------------------------------------ the whole analysis

  /** At most 20 artifact citations, whose files are the known artifacts under their own paths, and at
      most 10 source citations, whose files are the source files. */
  lemma RulesAre(w: Workspace)
    ensures !ArtifactRules(w).isSource && ArtifactRules(w).max == 20 && ArtifactRules(w).trim == w.trim
    ensures forall path :: ArtifactRules(w).resolve(path) == if w.artifact(path).None? then None else Some(File(w.artifact(path).value, path))
    ensures SourceRules(w) == Rules(true, 10, w.trim, w.sourceFile)
  {
  }

  ghost predicate AllCanPass(rules: Rules, cs: seq<Citation>, strict: bool) {
    forall k :: 0 <= k < |cs| ==> CanPass(rules, cs[k], strict)
  }

  ghost predicate SourcesAreFiles(w: Workspace, sources: seq<Citation>) {
    forall k :: 0 <= k < |sources| ==> w.identity(sources[k].path).Some?
  }

  /** What an analysis needs to be accepted. */
  lemma AcceptanceNeeds(w: Workspace, a: Analysis, strict: bool)
    ensures Canonicalize(w, a, strict).Canonical? <==>
              && w.manifestValid && NeededText(w, a) && IsSeverity(w.trim(a.severity))
              && a.evidence != [] && AllCanPass(ArtifactRules(w), a.evidence, strict) && AllCanPass(SourceRules(w), a.sources, strict)
              && (Verify(SourceRules(w), a.sources, strict).Success? ==>
                    SourcesAreFiles(w, Verify(SourceRules(w), a.sources, strict).value.out))
              && forall k :: 0 <= k < |a.relevantFiles| ==> NamesFile(w, a.relevantFiles[k])
  {
    RulesAre(w);
    TextRefusalIsExact(w, a);
    AcceptanceIsExact(ArtifactRules(w), a.evidence, strict);
    AcceptanceIsExact(SourceRules(w), a.sources, strict);
    if Verify(SourceRules(w), a.sources, strict).Success? {
      var sources := Verify(SourceRules(w), a.sources, strict).value.out;
      GroundedMeansCited(w, sources);
      if SourcesAreFiles(w, sources) { RelevantFilesAreExact(w, a.relevantFiles, sources); }
    }
    if CanonicalText(w, a).Success? { TextIsExact(w, a); }
  }

  /** Why an analysis is refused: the first thing missing, in this order. */
  lemma RefusalHasReason(w: Workspace, a: Analysis, strict: bool)
    requires Canonicalize(w, a, strict).Refused?
    ensures var artifacts, sources := Verify(ArtifactRules(w), a.evidence, strict), Verify(SourceRules(w), a.sources, strict);
            Canonicalize(w, a, strict).code == if !NeededText(w, a) then InvalidText
                                               else if !IsSeverity(w.trim(a.severity)) then InvalidClassification
                                               else if artifacts.Failure? then artifacts.error
                                               else if sources.Failure? then sources.error
                                               else if !SourcesAreFiles(w, sources.value.out) then SourcePath
                                               else InvalidRelevantFile
  {
    TextRefusalIsExact(w, a);
    if CanonicalText(w, a).Success? {
      TextIsExact(w, a);
      if Verify(SourceRules(w), a.sources, strict).Success? {
        var sources := Verify(SourceRules(w), a.sources, strict).value.out;
        GroundedMeansCited(w, sources);
        if SourcesAreFiles(w, sources) { RelevantFilesAreExact(w, a.relevantFiles, sources); }
      }
    }
  }

  /** What an accepted analysis says, and that its warnings tell everything that was changed or left
      out of it, and nothing else. */
  ghost predicate Explains(w: Workspace, a: Analysis, strict: bool, b: Analysis, warnings: set<Code>) {
    && PublishesText(w, a, b)
    && Verified(ArtifactRules(w), a.evidence, strict, Gathered(b.evidence, warnings * {ArtifactOverlap, ArtifactCount}))
    && Verified(SourceRules(w), a.sources, strict, Gathered(b.sources, warnings * {SourceOverlap, SourceCount}))
    && PublishesFiles(w, a.relevantFiles, b.sources, b.relevantFiles, InvalidRelevantFile in warnings)
    && (InvalidText in warnings <==> LosesText(w, a, b)) && (InvalidClassification in warnings <==> a.isTransient != b.isTransient)
    && warnings <= {InvalidText, InvalidClassification, ArtifactOverlap, ArtifactCount, SourceOverlap, SourceCount, InvalidRelevantFile}
  }

  lemma VerifiedWarns(rules: Rules, cs: seq<Citation>, strict: bool)
    requires Verify(rules, cs, strict).Success?
    ensures Verify(rules, cs, strict).value.warnings <= if rules.isSource then {SourceOverlap, SourceCount} else {ArtifactOverlap, ArtifactCount}
  {
    AcceptedIsVerified(rules, cs, strict);
  }

  /** The parts an accepted analysis is put together from. */
  lemma PartsOf(w: Workspace, a: Analysis, strict: bool)
    requires Canonicalize(w, a, strict).Canonical?
    ensures var Canonical(b, warnings) := Canonicalize(w, a, strict);
            var artifacts, sources := Verify(ArtifactRules(w), a.evidence, strict), Verify(SourceRules(w), a.sources, strict);
            && CanonicalText(w, a).Success? && artifacts.Success? && sources.Success?
            && b.evidence == artifacts.value.out && b.sources == sources.value.out
            && RelevantFiles(w, a.relevantFiles, b.sources).Success? && SourcesAreFiles(w, b.sources)
            && b.relevantFiles == RelevantFiles(w, a.relevantFiles, b.sources).value.value
            && SameText(b, CanonicalText(w, a).value.value)
            && warnings == CanonicalText(w, a).value.warnings + artifacts.value.warnings + sources.value.warnings +
                           RelevantFiles(w, a.relevantFiles, b.sources).value.warnings
  {
    TextIsExact(w, a);
    GroundedMeansCited(w, Verify(SourceRules(w), a.sources, strict).value.out);
  }

  predicate SameText(a: Analysis, b: Analysis) {
    && a.summary == b.summary && a.isTransient == b.isTransient && a.rootCause == b.rootCause && a.severity == b.severity
    && a.suggestedFix == b.suggestedFix && a.unresolved == b.unresolved
  }

  lemma AcceptedIsExplained(w: Workspace, a: Analysis, strict: bool)
    requires Canonicalize(w, a, strict).Canonical?
    ensures Explains(w, a, strict, Canonicalize(w, a, strict).analysis, Canonicalize(w, a, strict).warnings)
  {
    var Canonical(b, warnings) := Canonicalize(w, a, strict);
    PartsOf(w, a, strict);
    var text, files := CanonicalText(w, a).value, RelevantFiles(w, a.relevantFiles, b.sources).value;
    var artifacts, sources := Verify(ArtifactRules(w), a.evidence, strict).value, Verify(SourceRules(w), a.sources, strict).value;
    PartsExplain(w, a, strict, b, text, files, artifacts.warnings, sources.warnings);
  }

  lemma PartsExplain(w: Workspace, a: Analysis, strict: bool, b: Analysis, text: Warned<Analysis>, files: Warned<seq<string>>,
                     artifacts: set<Code>, sources: set<Code>)
    requires CanonicalText(w, a) == Success(text) && SameText(b, text.value)
    requires Verify(ArtifactRules(w), a.evidence, strict) == Success(Gathered(b.evidence, artifacts))
    requires Verify(SourceRules(w), a.sources, strict) == Success(Gathered(b.sources, sources)) && SourcesAreFiles(w, b.sources)
    requires RelevantFiles(w, a.relevantFiles, b.sources) == Success(files) && files.value == b.relevantFiles
    ensures Explains(w, a, strict, b, text.warnings + artifacts + sources + files.warnings)
  {
    TextIsExact(w, a);
    VerifiedWarns(ArtifactRules(w), a.evidence, strict);
    VerifiedWarns(SourceRules(w), a.sources, strict);
    RelevantFilesAreExact(w, a.relevantFiles, b.sources);
    var warnings := text.warnings + artifacts + sources + files.warnings;
    WarningsSplit(text.warnings, artifacts, sources, files.warnings);
    CitationsAreVerified(w, a, strict, b, warnings);
    TextIsPublished(w, a, b, warnings, text);
  }

  lemma WarningsSplit(text: set<Code>, artifacts: set<Code>, sources: set<Code>, files: set<Code>)
    requires text <= {InvalidText, InvalidClassification} && artifacts <= {ArtifactOverlap, ArtifactCount}
    requires sources <= {SourceOverlap, SourceCount} && files <= {InvalidRelevantFile}
    ensures var warnings := text + artifacts + sources + files;
            && warnings * {InvalidText, InvalidClassification} == text && warnings * {ArtifactOverlap, ArtifactCount} == artifacts
            && warnings * {SourceOverlap, SourceCount} == sources && (InvalidRelevantFile in warnings <==> InvalidRelevantFile in files)
            && warnings <= {InvalidText, InvalidClassification, ArtifactOverlap, ArtifactCount, SourceOverlap, SourceCount, InvalidRelevantFile}
  {
  }

  lemma CitationsAreVerified(w: Workspace, a: Analysis, strict: bool, b: Analysis, warnings: set<Code>)
    requires Verify(ArtifactRules(w), a.evidence, strict) == Success(Gathered(b.evidence, warnings * {ArtifactOverlap, ArtifactCount}))
    requires Verify(SourceRules(w), a.sources, strict) == Success(Gathered(b.sources, warnings * {SourceOverlap, SourceCount}))
    ensures Verified(ArtifactRules(w), a.evidence, strict, Gathered(b.evidence, warnings * {ArtifactOverlap, ArtifactCount}))
    ensures Verified(SourceRules(w), a.sources, strict, Gathered(b.sources, warnings * {SourceOverlap, SourceCount}))
  {
    AcceptedIsVerified(ArtifactRules(w), a.evidence, strict);
    AcceptedIsVerified(SourceRules(w), a.sources, strict);
  }

  lemma TextIsPublished(w: Workspace, a: Analysis, b: Analysis, warnings: set<Code>, text: Warned<Analysis>)
    requires CanonicalText(w, a) == Success(text) && SameText(b, text.value)
    requires warnings * {InvalidText, InvalidClassification} == text.warnings
    ensures PublishesText(w, a, b)
    ensures InvalidText in warnings <==> LosesText(w, a, b)
    ensures InvalidClassification in warnings <==> a.isTransient != b.isTransient
  {
    TextIsExact(w, a);
    assert InvalidText in warnings <==> InvalidText in warnings * {InvalidText, InvalidClassification};
    assert InvalidClassification in warnings <==> InvalidClassification in warnings * {InvalidText, InvalidClassification};
  }
}
