/** Evidence handles and their diagnostics: what a handle list must look like, and the two validators
    that check a built one. */
module EvidenceHandles {
  import opened Wrappers
  import opened Order
  import opened EvidenceIndex

  const ARTIFACTS: string := "artifacts"
  const SOURCE: string := "source"

  const MAX_RANGES: nat := 512
  const MAX_PER_ROOT: nat := 64
  const MAX_CACHE_BYTES: nat := 0x400_0000

  datatype Range = Range(root: string, path: string, lineStart: int, lineEnd: int)

  datatype Handle = Handle(id: string, root: string, path: string, lineStart: int, lineEnd: int)

  datatype Status = NoStatus | Accepted | AcceptedWithWarnings | Rejected

  datatype Diagnostics = Diagnostics(
    status: Status, observed: int, artifacts: int, sources: int, dropped: int, truncated: bool, codes: seq<string>)

  datatype Code = RangeOverflow | RootInvalid | PathInvalid | Unreadable | LineInvalid | Noncanonical | Duplicate | Truncated |
                  Timeout | ArtifactsMissing

  function Name(code: Code): string {
    match code
    case RangeOverflow => "evidence_range_overflow"
    case RootInvalid => "evidence_range_root_invalid"
    case PathInvalid => "evidence_range_path_invalid"
    case Unreadable => "evidence_range_unreadable"
    case LineInvalid => "evidence_range_line_invalid"
    case Noncanonical => "evidence_handle_noncanonical"
    case Duplicate => "evidence_handle_duplicate"
    case Truncated => "evidence_handle_truncated"
    case Timeout => "evidence_handle_timeout"
    case ArtifactsMissing => "evidence_artifact_handles_missing"
  }

  /** Length and three letters of a name, enough to tell the codes apart. */
  function Mark(c: Code): (nat, char, char, char) {
    match c
    case RangeOverflow => (23, 'r', 'o', 'v')
    case RootInvalid => (27, 'r', 'r', 'o')
    case PathInvalid => (27, 'r', 'p', 'a')
    case Unreadable => (25, 'r', 'u', 'n')
    case LineInvalid => (27, 'r', 'l', 'i')
    case Noncanonical => (28, 'h', '_', 'n')
    case Duplicate => (25, 'h', '_', 'd')
    case Truncated => (25, 'h', '_', 't')
    case Timeout => (23, 'h', '_', 't')
    case ArtifactsMissing => (33, 'a', 'c', 't')
  }

  lemma NameHasMark(c: Code)
    ensures |Name(c)| > 16 && (|Name(c)|, Name(c)[9], Name(c)[15], Name(c)[16]) == Mark(c)
  {
    match c
    case RangeOverflow =>
    case RootInvalid =>
    case PathInvalid =>
    case Unreadable =>
    case LineInvalid =>
    case Noncanonical =>
    case Duplicate =>
    case Truncated =>
    case Timeout =>
    case ArtifactsMissing =>
  }

  /** No two codes share a name. */
  lemma NamesDiffer(a: Code, b: Code)
    requires a != b
    ensures Name(a) != Name(b)
  {
    NameHasMark(a);
    NameHasMark(b);
  }

  predicate ValidCode(name: string) {
    exists code: Code :: Name(code) == name
  }

  /** The files under both roots, unchanged throughout: resolving a path finds a file, nothing usable,
      or an escape; reading one gives text, or says the path is unsafe, or fails otherwise. */
  datatype PathStat = Escaping | NoFile | Regular(size: nat)
  datatype ReadResult = Text(content: string) | UnsafePath | NotText
  datatype Files = Files(
    trim: string -> string, isSafe: string -> bool, stat: (string, string) -> PathStat, read: (string, string) -> ReadResult)

  predicate KnownRoot(root: string) {
    root == ARTIFACTS || root == SOURCE
  }

  // ------------------------------------------------------------------ handle ids

  function Prefix(root: string): string {
    if root == SOURCE then "source" else "artifact"
  }

  function Digit(n: nat): char {
    '0' + (n % 10) as char
  }

  /** "%s-%03d". */
  function Id(root: string, n: nat): string
    requires n < 1000
  {
    Prefix(root) + "-" + [Digit(n / 100), Digit(n / 10), Digit(n)]
  }

  predicate ValidId(id: string, root: string) {
    var prefix := Prefix(root) + "-";
    && prefix <= id && |id| == |prefix| + 3
    && (forall i :: |prefix| <= i < |id| ==> '0' <= id[i] <= '9')
    && id[|prefix|..] != "000"
  }

  lemma IdIsValid(root: string, n: nat)
    requires 0 < n < 1000
    ensures ValidId(Id(root, n), root)
  {
    var prefix, id := Prefix(root) + "-", Id(root, n);
    assert id[..|prefix|] == prefix && id[|prefix|..] == [Digit(n / 100), Digit(n / 10), Digit(n)];
  }

  /** The valid ids are the prefix of the root and a number from 001 to 999. */
  lemma ValidIdMeaning(id: string, root: string)
    ensures ValidId(id, root) <==> exists n: nat :: 0 < n < 1000 && id == Id(root, n)
  {
    var prefix := Prefix(root) + "-";
    if ValidId(id, root) {
      var digits := id[|prefix|..];
      assert forall i :: 0 <= i < 3 ==> digits[i] == id[|prefix| + i];
      var a, b, c := (digits[0] - '0') as int, (digits[1] - '0') as int, (digits[2] - '0') as int;
      var n: nat := a * 100 + b * 10 + c;
      assert n / 100 == a && n / 10 == a * 10 + b;
      assert digits == [Digit(n / 100), Digit(n / 10), Digit(n)];
      assert id == prefix + digits;
      assert n == 0 ==> digits == "000";
      assert 0 < n < 1000 && id == Id(root, n);
    }
    forall n: nat | 0 < n < 1000 && id == Id(root, n) ensures ValidId(id, root) { IdIsValid(root, n); }
  }

  lemma LessTriple(a: string, b: string)
    requires |a| == 3 && |b| == 3
    ensures Less(a, b) <==> a[0] < b[0] || (a[0] == b[0] && (a[1] < b[1] || (a[1] == b[1] && a[2] < b[2])))
  {
    assert a[1..][1..] == a[2..] && b[1..][1..] == b[2..];
    assert a[2..][1..] == [] && b[2..][1..] == [];
    assert Less(a[2..], b[2..]) <==> a[2] < b[2];
    assert Less(a[1..], b[1..]) <==> a[1] < b[1] || (a[1] == b[1] && Less(a[2..], b[2..]));
  }

  lemma DigitsOf(n: nat)
    requires n < 1000
    ensures n == n / 100 * 100 + n / 10 % 10 * 10 + n % 10 && n / 100 % 10 == n / 100
  {
  }

  /** Numbering upwards keeps ids in string order. */
  lemma IdsIncrease(root: string, m: nat, n: nat)
    requires m < n < 1000
    ensures Less(Id(root, m), Id(root, n))
  {
    var a, b := [Digit(m / 100), Digit(m / 10), Digit(m)], [Digit(n / 100), Digit(n / 10), Digit(n)];
    LessAfterPrefix(Prefix(root) + "-", a, b);
    LessTriple(a, b);
    DigitsOf(m);
    DigitsOf(n);
  }

  lemma ArtifactsBeforeSources(m: nat, n: nat)
    requires m < 1000 && n < 1000
    ensures Less(Id(ARTIFACTS, m), Id(SOURCE, n))
  {
    assert Id(ARTIFACTS, m)[0] == 'a' && Id(SOURCE, n)[0] == 's';
  }

  // ------------------------------------------------------------------ the handle validator

  datatype Line = Line(root: string, path: string, number: int)

  function LineOfHandle(h: Handle): Line {
    Line(h.root, h.path, h.lineStart)
  }

  predicate ValidHandle(files: Files, h: Handle) {
    KnownRoot(h.root) && ValidId(h.id, h.root) && files.isSafe(h.path) && h.lineStart >= 1 && h.lineEnd == h.lineStart
  }

  predicate DistinctLines(handles: seq<Handle>) {
    forall i, j :: 0 <= i < j < |handles| ==> LineOfHandle(handles[i]) != LineOfHandle(handles[j])
  }

  predicate IncreasingIds(handles: seq<Handle>) {
    forall i, j :: 0 <= i < j < |handles| ==> Less(handles[i].id, handles[j].id)
  }

  /** The handle lists that pass: bounded, every handle valid, ids in strictly increasing order, no
      line twice. */
  predicate CanonicalHandles(files: Files, handles: seq<Handle>) {
    && |handles| <= 2 * MAX_PER_ROOT
    && (forall h :: h in handles ==> ValidHandle(files, h))
    && IncreasingIds(handles) && DistinctLines(handles)
  }

  lemma ValidHandleMeaning(files: Files, h: Handle)
    ensures ValidHandle(files, h) <==>
              && (h.root == "artifacts" || h.root == "source") && (exists n: nat :: 0 < n < 1000 && h.id == Id(h.root, n))
              && files.isSafe(h.path) && 1 <= h.lineStart == h.lineEnd
  {
    ValidIdMeaning(h.id, h.root);
  }

  /** At most 128 valid handles, in rising order of their ids, no line twice. */
  lemma CanonicalMeaning(files: Files, handles: seq<Handle>)
    ensures CanonicalHandles(files, handles) <==>
              && |handles| <= 128 && (forall i :: 0 <= i < |handles| ==> ValidHandle(files, handles[i]))
              && forall i, j :: 0 <= i < j < |handles| ==>
                   && Less(handles[i].id, handles[j].id)
                   && (handles[i].root, handles[i].path, handles[i].lineStart) != (handles[j].root, handles[j].path, handles[j].lineStart)
  {
    forall i, j | 0 <= i < j < |handles|
      ensures LineOfHandle(handles[i]) != LineOfHandle(handles[j]) <==>
                (handles[i].root, handles[i].path, handles[i].lineStart) != (handles[j].root, handles[j].path, handles[j].lineStart)
    {
    }
  }

  /** Some handle is invalid, repeats an earlier line, or has an id no later than the one before. */
  predicate Spoils(files: Files, handles: seq<Handle>, k: nat)
    requires k < |handles|
  {
    || !ValidHandle(files, handles[k])
    || (k > 0 && AtMost(handles[k].id, handles[k - 1].id))
    || exists i :: 0 <= i < k && (handles[i].id == handles[k].id || LineOfHandle(handles[i]) == LineOfHandle(handles[k]))
  }

  lemma SpoiledIsNotCanonical(files: Files, handles: seq<Handle>, k: nat)
    requires k < |handles| && Spoils(files, handles, k)
    ensures !CanonicalHandles(files, handles)
  {
    if ValidHandle(files, handles[k]) {
      if k > 0 && AtMost(handles[k].id, handles[k - 1].id) {
        LessIsStrict(handles[k - 1].id, handles[k].id);
        assert !IncreasingIds(handles) by { assert !Less(handles[k - 1].id, handles[k].id); }
      } else {
        var i :| 0 <= i < k && (handles[i].id == handles[k].id || LineOfHandle(handles[i]) == LineOfHandle(handles[k]));
        LessIsStrict(handles[i].id, handles[k].id);
      }
    }
  }

  /** validateWorkspaceEvidenceHandles. */
  method ValidateHandles(files: Files, handles: seq<Handle>) returns (ok: bool)
    ensures ok <==> CanonicalHandles(files, handles)
  {
    if |handles| > 2 * MAX_PER_ROOT { return false; }
    var seenIds: set<string>, seenLines: set<Line>, lastId := {}, {}, "";
    for k := 0 to |handles|
      invariant CanonicalHandles(files, handles[..k]) && Remembers(handles, k, seenIds, seenLines, lastId)
    {
      var handle := handles[k];
      RememberedSpoils(files, handles, k, seenIds, seenLines, lastId);
      if !ValidHandle(files, handle) || handle.id in seenIds || (lastId != "" && AtMost(handle.id, lastId)) ||
         LineOfHandle(handle) in seenLines {
        SpoiledIsNotCanonical(files, handles, k);
        return false;
      }
      ExtendCanonical(files, handles, k);
      RememberOne(files, handles, k, seenIds, seenLines, lastId);
      seenIds, seenLines, lastId := seenIds + {handle.id}, seenLines + {LineOfHandle(handle)}, handle.id;
    }
    assert handles[..|handles|] == handles;
    ok := true;
  }

  ghost predicate Remembers(handles: seq<Handle>, k: nat, seenIds: set<string>, seenLines: set<Line>, lastId: string)
    requires k <= |handles|
  {
    && seenIds == (set i | 0 <= i < k :: handles[i].id)
    && seenLines == (set i | 0 <= i < k :: LineOfHandle(handles[i]))
    && if k == 0 then lastId == "" else lastId == handles[k - 1].id && lastId != ""
  }

  lemma RememberedSpoils(files: Files, handles: seq<Handle>, k: nat, seenIds: set<string>, seenLines: set<Line>, lastId: string)
    requires k < |handles| && Remembers(handles, k, seenIds, seenLines, lastId)
    ensures Spoils(files, handles, k) <==>
              (!ValidHandle(files, handles[k]) || handles[k].id in seenIds || (lastId != "" && AtMost(handles[k].id, lastId)) ||
               LineOfHandle(handles[k]) in seenLines)
  {
  }

  lemma RememberOne(files: Files, handles: seq<Handle>, k: nat, seenIds: set<string>, seenLines: set<Line>, lastId: string)
    requires k < |handles| && Remembers(handles, k, seenIds, seenLines, lastId) && ValidHandle(files, handles[k])
    ensures Remembers(handles, k + 1, seenIds + {handles[k].id}, seenLines + {LineOfHandle(handles[k])}, handles[k].id)
  {
  }

  lemma ExtendCanonical(files: Files, handles: seq<Handle>, k: nat)
    requires k < |handles| <= 2 * MAX_PER_ROOT && CanonicalHandles(files, handles[..k]) && !Spoils(files, handles, k)
    ensures CanonicalHandles(files, handles[..k + 1])
  {
    ExtendIncreasing(handles, k);
    ExtendDistinct(handles, k);
    assert handles[..k + 1] == handles[..k] + [handles[k]];
  }

  lemma ExtendDistinct(handles: seq<Handle>, k: nat)
    requires k < |handles| && DistinctLines(handles[..k])
    requires forall i :: 0 <= i < k ==> LineOfHandle(handles[i]) != LineOfHandle(handles[k])
    ensures DistinctLines(handles[..k + 1])
  {
    var longer := handles[..k + 1];
    forall i, j | 0 <= i < j < |longer| ensures LineOfHandle(longer[i]) != LineOfHandle(longer[j]) {
      if j < k { assert LineOfHandle(handles[..k][i]) != LineOfHandle(handles[..k][j]); }
    }
  }

  lemma ExtendIncreasing(handles: seq<Handle>, k: nat)
    requires k < |handles| && IncreasingIds(handles[..k])
    requires k > 0 ==> !AtMost(handles[k].id, handles[k - 1].id)
    ensures IncreasingIds(handles[..k + 1])
  {
    var longer := handles[..k + 1];
    forall i, j | 0 <= i < j < |longer| ensures Less(longer[i].id, longer[j].id) {
      assert j < k ==> Less(handles[..k][i].id, handles[..k][j].id);
      if j == k {
        LessIsStrict(handles[k].id, handles[k - 1].id);
        if i < k - 1 {
          assert Less(handles[..k][i].id, handles[..k][k - 1].id);
          LessIsTransitive(handles[i].id, handles[k - 1].id, handles[k].id);
        }
      }
    }
  }

  // ------------------------------------------------------------------ the diagnostics validator

  /** validateWorkspaceEvidenceHandleDiagnostics. */
  predicate ValidDiagnostics(d: Diagnostics) {
    if d.status == NoStatus then d == Diagnostics(NoStatus, 0, 0, 0, 0, false, [])
    else
      && 0 <= d.observed <= MAX_RANGES + 1
      && 0 <= d.artifacts <= MAX_PER_ROOT && 0 <= d.sources <= MAX_PER_ROOT
      && 0 <= d.dropped <= MAX_RANGES + 1
      && (forall i :: 0 <= i < |d.codes| ==> ValidCode(d.codes[i]))
      && (forall i, j :: 0 <= i < j < |d.codes| ==> d.codes[i] != d.codes[j] && AtMost(d.codes[i], d.codes[j]))
      && (d.status == Accepted ==> d.dropped == 0 && !d.truncated && d.codes == [])
      && (d.status != Accepted ==> d.codes != [])
      && d.dropped <= d.observed
      && (d.status != Rejected ==> d.artifacts >= 1)
  }

  ghost function NamesOf(codes: set<Code>): seq<string> {
    SortedNames(set code | code in codes :: Name(code))
  }

  /** The codes are a set of known ones in string order; an accepted outcome dropped nothing and has
      none, any other has some; no more was dropped than observed, at most 512 ranges and the one that
      overflows; and only a rejected outcome can do without artifact handles, of which there are at
      most 64, as of source handles. */
  lemma DiagnosticsAreExact(d: Diagnostics)
    ensures ValidDiagnostics(d) <==>
              if d.status == NoStatus then d == Diagnostics(NoStatus, 0, 0, 0, 0, false, [])
              else
                && 0 <= d.dropped <= d.observed <= 513 && 0 <= d.artifacts <= 64 && 0 <= d.sources <= 64
                && (exists codes: set<Code> :: d.codes == NamesOf(codes))
                && (d.status == Accepted <==> d.codes == []) && (d.status == Accepted ==> d.dropped == 0 && !d.truncated)
                && (d.status == Rejected || d.artifacts > 0)
  {
    if ValidDiagnostics(d) {
      var codes := set code: Code | Name(code) in d.codes;
      forall name | name in d.codes ensures exists code :: code in codes && Name(code) == name {
        var code: Code :| Name(code) == name;
        assert code in codes;
      }
      assert (set code | code in codes :: Name(code)) == set name | name in d.codes;
      RisingIsSorted(d.codes);
      assert d.codes == NamesOf(codes);
    }
    forall codes: set<Code> | d.codes == NamesOf(codes)
      ensures forall i :: 0 <= i < |d.codes| ==> ValidCode(d.codes[i])
      ensures forall i, j :: 0 <= i < j < |d.codes| ==> d.codes[i] != d.codes[j] && AtMost(d.codes[i], d.codes[j])
    {
      SortedNamesMeaning(set code | code in codes :: Name(code));
      SortedNamesMembers(set code | code in codes :: Name(code));
      forall i | 0 <= i < |d.codes| ensures ValidCode(d.codes[i]) { assert d.codes[i] in d.codes; }
    }
  }

  /** The codes gathered, in string order. */
  method FinishCodes(codes: set<Code>) returns (list: seq<string>)
    ensures forall name :: name in list <==> exists code :: code in codes && Name(code) == name
    ensures forall i, j :: 0 <= i < j < |list| ==> list[i] != list[j] && AtMost(list[i], list[j])
  {
    var names := set code | code in codes :: Name(code);
    list := SortNames(names);
    SortedNamesMeaning(names);
    SortedNamesMembers(names);
  }
}
