/** Outcomes of validating an analysis result, and the validator of those outcomes. */
module ResultValidation {
  import opened Order

  datatype Code =
    | InvalidJson | InvalidVersion | InvalidText | ArtifactCount | ArtifactPath | ArtifactLineRange | ArtifactOverlap
    | SourceCount | SourcePath | SourceLineRange | SourceOverlap | InvalidRelevantFile | InvalidClassification

  function Name(code: Code): string {
    match code
    case InvalidJson => "invalid_result_json"
    case InvalidVersion => "invalid_result_version"
    case InvalidText => "invalid_analysis_text"
    case ArtifactCount => "invalid_artifact_citation_count"
    case ArtifactPath => "invalid_artifact_path"
    case ArtifactLineRange => "invalid_artifact_line_range"
    case ArtifactOverlap => "invalid_artifact_overlap"
    case SourceCount => "invalid_source_citation_count"
    case SourcePath => "invalid_source_path"
    case SourceLineRange => "invalid_source_line_range"
    case SourceOverlap => "invalid_source_overlap"
    case InvalidRelevantFile => "invalid_relevant_file"
    case InvalidClassification => "invalid_classification"
  }

  function AllCodes(): set<Code> {
    {InvalidJson, InvalidVersion, InvalidText, ArtifactCount, ArtifactPath, ArtifactLineRange, ArtifactOverlap, SourceCount,
     SourcePath, SourceLineRange, SourceOverlap, InvalidRelevantFile, InvalidClassification}
  }

  datatype Status = NoStatus | Accepted | AcceptedWithWarnings | Rejected

  datatype Validation = Validation(status: Status, codes: seq<string>)

  function Names(codes: set<Code>): set<string> {
    set code | code in codes :: Name(code)
  }

  function NamesIn(v: Validation): set<string> {
    set name | name in v.codes
  }

  // ------------------------------------------------------------------ building outcomes

  ghost function AcceptedResult(warnings: set<string>): Validation {
    if warnings == {} then Validation(Accepted, []) else Validation(AcceptedWithWarnings, SortedNames(warnings))
  }

  function RejectedResult(code: Code): Validation {
    Validation(Rejected, [Name(code)])
  }

  /** acceptedWorkspaceResult. */
  method AcceptResult(warnings: set<string>) returns (v: Validation)
    ensures v == AcceptedResult(warnings)
  {
    if warnings == {} { return Validation(Accepted, []); }
    var codes := SortNames(warnings);
    v := Validation(AcceptedWithWarnings, codes);
  }

  /** mergeWorkspaceResultValidation. */
  method Merge(first: Validation, second: Validation) returns (v: Validation)
    ensures v == AcceptedResult(NamesIn(first) + NamesIn(second))
  {
    var warnings: set<string> := {};
    for i := 0 to |first.codes|
      invariant warnings == set k | 0 <= k < i :: first.codes[k]
    {
      warnings := warnings + {first.codes[i]};
    }
    assert warnings == NamesIn(first);
    for i := 0 to |second.codes|
      invariant warnings == NamesIn(first) + set k | 0 <= k < i :: second.codes[k]
    {
      warnings := warnings + {second.codes[i]};
    }
    assert warnings == NamesIn(first) + NamesIn(second);
    v := AcceptResult(warnings);
  }

  // ------------------------------------------------------------------ the outcome validator

  predicate KnownCode(name: string) {
    exists code: Code :: Name(code) == name
  }

  /** validateWorkspaceResultValidation. */
  predicate ValidValidation(v: Validation, allowEmpty: bool) {
    if v.status == NoStatus then allowEmpty && v.codes == []
    else
      && |v.codes| <= 16
      && (forall i :: 0 <= i < |v.codes| - 1 ==> AtMost(v.codes[i], v.codes[i + 1]) && v.codes[i] != v.codes[i + 1])
      && (forall i :: 0 <= i < |v.codes| ==> KnownCode(v.codes[i]))
      && match v.status
         case Accepted => v.codes == []
         case AcceptedWithWarnings => v.codes != []
         case _ => |v.codes| == 1
  }

  lemma {:induction false} NamesSize(codes: set<Code>)
    ensures |Names(codes)| <= |codes|
    decreases |codes|
  {
    if codes != {} {
      var code :| code in codes;
      NamesSize(codes - {code});
      assert codes == (codes - {code}) + {code};
      assert Names(codes) == Names(codes - {code}) + {Name(code)};
    } else {
      assert Names(codes) == {};
    }
  }

  lemma FewCodes(codes: set<Code>)
    ensures |codes| <= 13
  {
    forall code | code in codes ensures code in AllCodes() {
      match code
      case InvalidJson =>
      case _ =>
    }
    assert AllCodes() == codes + (AllCodes() - codes);
    assert |AllCodes()| <= 13;
  }

  /** Whatever warnings were gathered, the accepted outcome passes the outcome validator. */
  lemma AcceptedIsValid(warnings: set<Code>, allowEmpty: bool)
    ensures ValidValidation(AcceptedResult(Names(warnings)), allowEmpty)
  {
    var names := Names(warnings);
    NamesSize(warnings);
    FewCodes(warnings);
    SortedNamesMeaning(names);
    SortedNamesMembers(names);
    if names != {} {
      var list := SortedNames(names);
      forall i | 0 <= i < |list| ensures KnownCode(list[i]) { assert list[i] in names; }
      assert |list| == |names| != 0;
    }
  }

  lemma RejectedIsValid(code: Code, allowEmpty: bool)
    ensures ValidValidation(RejectedResult(code), allowEmpty)
  {
  }

  lemma NamesOfAccepted(warnings: set<string>)
    ensures NamesIn(AcceptedResult(warnings)) == warnings
  {
    SortedNamesMembers(warnings);
  }

  /** Merging two accepted outcomes is accepting the union of their warnings. */
  lemma MergeIsUnion(a: set<string>, b: set<string>)
    ensures AcceptedResult(NamesIn(AcceptedResult(a)) + NamesIn(AcceptedResult(b))) == AcceptedResult(a + b)
  {
    NamesOfAccepted(a);
    NamesOfAccepted(b);
  }

  // ------------------------------------------------------------------ what the outcomes stand for

  /** Length and two letters of a name, enough to tell the codes apart. */
  function Mark(code: Code): (nat, char, char) {
    match code
    case InvalidJson => (19, 'r', 'e')
    case InvalidVersion => (22, 'r', 'e')
    case InvalidText => (21, 'a', 'n')
    case ArtifactCount => (31, 'a', 'r')
    case ArtifactPath => (21, 'a', 'r')
    case ArtifactLineRange => (27, 'a', 'r')
    case ArtifactOverlap => (24, 'a', 'r')
    case SourceCount => (29, 's', 'o')
    case SourcePath => (19, 's', 'o')
    case SourceLineRange => (25, 's', 'o')
    case SourceOverlap => (22, 's', 'o')
    case InvalidRelevantFile => (21, 'r', 'e')
    case InvalidClassification => (22, 'c', 'l')
  }

  lemma NameHasMark(code: Code)
    ensures |Name(code)| > 9 && (|Name(code)|, Name(code)[8], Name(code)[9]) == Mark(code)
  {
    match code
    case InvalidJson =>
    case InvalidVersion =>
    case InvalidText =>
    case ArtifactCount =>
    case ArtifactPath =>
    case ArtifactLineRange =>
    case ArtifactOverlap =>
    case SourceCount =>
    case SourcePath =>
    case SourceLineRange =>
    case SourceOverlap =>
    case InvalidRelevantFile =>
    case InvalidClassification =>
  }

  /** The warnings can be read back from their names. */
  lemma NamesKeepCodes(warnings: set<Code>, code: Code)
    ensures Name(code) in Names(warnings) <==> code in warnings
  {
    NameHasMark(code);
    forall other | other in warnings && Name(other) == Name(code) ensures other == code { NameHasMark(other); }
  }

  lemma KnownNamesAreNames(names: seq<string>)
    requires forall i :: 0 <= i < |names| ==> KnownCode(names[i])
    ensures Names(set code: Code | Name(code) in names) == set name | name in names
  {
    var codes := set code: Code | Name(code) in names;
    forall name | name in names ensures name in Names(codes) {
      var code: Code :| Name(code) == name;
      assert code in codes;
    }
  }

  /** The outcome validator accepts exactly the outcomes a validation can have, and an empty one where
      that is allowed. */
  lemma ValidMeansProduced(v: Validation, allowEmpty: bool)
    ensures ValidValidation(v, allowEmpty) <==>
              || (exists warnings: set<Code> :: v == AcceptedResult(Names(warnings)))
              || (exists code: Code :: v == RejectedResult(code))
              || (allowEmpty && v == Validation(NoStatus, []))
  {
    forall warnings: set<Code> ensures ValidValidation(AcceptedResult(Names(warnings)), allowEmpty) { AcceptedIsValid(warnings, allowEmpty); }
    if ValidValidation(v, allowEmpty) {
      match v.status
      case NoStatus =>
      case Rejected =>
        var code: Code :| Name(code) == v.codes[0];
        assert v == RejectedResult(code);
      case _ =>
        var warnings := set code: Code | Name(code) in v.codes;
        KnownNamesAreNames(v.codes);
        RisingIsSorted(v.codes);
        SortedNamesMembers(Names(warnings));
        assert v == AcceptedResult(Names(warnings));
    }
  }
}
