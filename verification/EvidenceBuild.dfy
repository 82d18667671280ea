/** The whole construction of evidence handles, and why both validators accept whatever it returns. */
module EvidenceBuild {
  import opened Wrappers
  import opened Order
  import opened EvidenceIndex
  import opened EvidenceHandles
  import opened EvidenceBuilder

  // ------------------------------------------------------------------ numbering

  /** A list of sorted, distinct, well-formed handles, at most 64 per root. */
  ghost predicate Numberable(files: Files, sorted: seq<Handle>) {
    && Sorted(HandleAtMost, sorted) && DistinctLines(sorted)
    && (forall h :: h in sorted ==> KnownRoot(h.root) && files.isSafe(h.path) && h.lineStart >= 1 && h.lineEnd == h.lineStart)
    && |LinesOf(HandleLines(sorted), ARTIFACTS)| <= MAX_PER_ROOT && |LinesOf(HandleLines(sorted), SOURCE)| <= MAX_PER_ROOT
  }

  predicate Block(sorted: seq<Handle>, lo: nat, hi: nat, root: string) {
    lo <= hi <= |sorted| && forall i :: lo <= i < hi ==> sorted[i].root == root
  }

  function BlockLines(sorted: seq<Handle>, lo: nat, hi: nat): set<Line>
    requires lo <= hi <= |sorted|
  {
    set i | lo <= i < hi :: LineOfHandle(sorted[i])
  }

  lemma {:induction false} BlockSize(sorted: seq<Handle>, lo: nat, hi: nat)
    requires lo <= hi <= |sorted| && DistinctLines(sorted)
    ensures |BlockLines(sorted, lo, hi)| == hi - lo
    decreases hi
  {
    if lo == hi {
      assert BlockLines(sorted, lo, hi) == {};
    } else {
      BlockSize(sorted, lo, hi - 1);
      assert BlockLines(sorted, lo, hi) == BlockLines(sorted, lo, hi - 1) + {LineOfHandle(sorted[hi - 1])};
    }
  }

  lemma SubsetSize<T>(a: set<T>, b: set<T>)
    requires a <= b
    ensures |a| <= |b|
  {
    assert b == a + (b - a);
  }

  lemma BlockBound(sorted: seq<Handle>, lo: nat, hi: nat, root: string)
    requires Block(sorted, lo, hi, root) && DistinctLines(sorted)
    ensures hi - lo <= |LinesOf(HandleLines(sorted), root)|
  {
    BlockSize(sorted, lo, hi);
    forall l | l in BlockLines(sorted, lo, hi) ensures l in LinesOf(HandleLines(sorted), root) {
      var i :| lo <= i < hi && LineOfHandle(sorted[i]) == l;
      assert sorted[i] in sorted;
    }
    SubsetSize(BlockLines(sorted, lo, hi), LinesOf(HandleLines(sorted), root));
  }

  lemma ArtifactsFirst(sorted: seq<Handle>, i: nat, j: nat)
    requires Sorted(HandleAtMost, sorted) && i < j < |sorted| && sorted[i].root == SOURCE && KnownRoot(sorted[j].root)
    ensures sorted[j].root == SOURCE
  {
    assert HandleAtMost(sorted[i], sorted[j]);
    assert SOURCE[0] == 's' && ARTIFACTS[0] == 'a';
  }

  function NumberOf(artifacts: nat, i: nat): nat {
    if i < artifacts then i + 1 else i - artifacts + 1
  }

  predicate NumberedTo(sorted: seq<Handle>, numbered: seq<Handle>, k: nat, artifacts: nat) {
    && |numbered| == |sorted| && artifacts <= k <= |sorted|
    && (forall i :: 0 <= i < k ==> NumberOf(artifacts, i) < 1000)
    && (forall i :: 0 <= i < k ==> numbered[i] == sorted[i].(id := Id(sorted[i].root, NumberOf(artifacts, i))))
    && forall i :: k <= i < |sorted| ==> numbered[i] == sorted[i]
  }

  /** The first k handles are numbered; artifacts come first. */
  predicate Numbering(sorted: seq<Handle>, numbered: seq<Handle>, k: nat, artifacts: nat) {
    NumberedTo(sorted, numbered, k, artifacts) && Block(sorted, 0, artifacts, ARTIFACTS) && Block(sorted, artifacts, k, SOURCE)
  }

  /** Give each handle its root's next number. */
  method Number(files: Files, sorted: seq<Handle>) returns (numbered: seq<Handle>, artifacts: nat, sources: nat)
    requires Numberable(files, sorted)
    ensures Numbering(sorted, numbered, |sorted|, artifacts) && artifacts + sources == |sorted|
    ensures forall i :: 0 <= i < |numbered| ==> numbered[i].root == if i < artifacts then ARTIFACTS else SOURCE
  {
    numbered, artifacts, sources := sorted, 0, 0;
    for k := 0 to |sorted|
      invariant Numbering(sorted, numbered, k, artifacts) && artifacts + sources == k
    {
      NextInOrder(files, sorted, k, artifacts);
      NumberOne(sorted, numbered, k, artifacts);
      if sorted[k].root == SOURCE {
        sources := sources + 1;
        numbered := numbered[k := numbered[k].(id := Id(SOURCE, sources))];
      } else {
        artifacts := artifacts + 1;
        numbered := numbered[k := numbered[k].(id := Id(ARTIFACTS, artifacts))];
      }
    }
  }

  lemma NumberOne(sorted: seq<Handle>, numbered: seq<Handle>, k: nat, artifacts: nat)
    requires Numbering(sorted, numbered, k, artifacts) && k < |sorted| && artifacts <= MAX_PER_ROOT && k - artifacts <= MAX_PER_ROOT
    requires sorted[k].root == ARTIFACTS ==> k == artifacts
    ensures sorted[k].root == SOURCE ==> Numbering(sorted, numbered[k := numbered[k].(id := Id(SOURCE, k - artifacts + 1))], k + 1, artifacts)
    ensures sorted[k].root == ARTIFACTS ==>
              Numbering(sorted, numbered[k := numbered[k].(id := Id(ARTIFACTS, artifacts + 1))], k + 1, artifacts + 1)
  {
  }

  /** Sources come after all artifacts, and neither are many. */
  lemma NextInOrder(files: Files, sorted: seq<Handle>, k: nat, artifacts: nat)
    requires Numberable(files, sorted) && artifacts <= k < |sorted|
    requires Block(sorted, 0, artifacts, ARTIFACTS) && Block(sorted, artifacts, k, SOURCE)
    ensures KnownRoot(sorted[k].root) && artifacts <= MAX_PER_ROOT && k - artifacts <= MAX_PER_ROOT
    ensures sorted[k].root == ARTIFACTS ==> k == artifacts
  {
    assert sorted[k] in sorted;
    BlockBound(sorted, 0, artifacts, ARTIFACTS);
    BlockBound(sorted, artifacts, k, SOURCE);
    if artifacts < k { ArtifactsFirst(sorted, k - 1, k); }
  }

  lemma NumberedIds(sorted: seq<Handle>, numbered: seq<Handle>, artifacts: nat, i: nat, j: nat)
    requires Numbering(sorted, numbered, |sorted|, artifacts) && i < j < |sorted|
    ensures Less(numbered[i].id, numbered[j].id)
  {
    var m, n := NumberOf(artifacts, i), NumberOf(artifacts, j);
    if j < artifacts {
      IdsIncrease(ARTIFACTS, m, n);
    } else if i < artifacts {
      ArtifactsBeforeSources(m, n);
    } else {
      IdsIncrease(SOURCE, m, n);
    }
  }

  lemma NumberedIsValid(files: Files, sorted: seq<Handle>, numbered: seq<Handle>, artifacts: nat, i: nat)
    requires Numberable(files, sorted) && NumberedTo(sorted, numbered, |sorted|, artifacts) && i < |sorted|
    ensures ValidHandle(files, numbered[i])
  {
    assert sorted[i] in sorted;
    IdIsValid(sorted[i].root, NumberOf(artifacts, i));
  }

  lemma NumberedIsCanonical(files: Files, sorted: seq<Handle>, numbered: seq<Handle>, artifacts: nat)
    requires Numberable(files, sorted) && Numbering(sorted, numbered, |sorted|, artifacts)
    ensures CanonicalHandles(files, numbered)
    ensures artifacts <= MAX_PER_ROOT && |sorted| - artifacts <= MAX_PER_ROOT
  {
    BlockBound(sorted, 0, artifacts, ARTIFACTS);
    BlockBound(sorted, artifacts, |sorted|, SOURCE);
    forall h | h in numbered ensures ValidHandle(files, h) {
      var i :| 0 <= i < |numbered| && numbered[i] == h;
      NumberedIsValid(files, sorted, numbered, artifacts, i);
    }
    forall i, j | 0 <= i < j < |numbered| ensures Less(numbered[i].id, numbered[j].id) {
      NumberedIds(sorted, numbered, artifacts, i, j);
    }
    NumberedDistinct(sorted, numbered, artifacts);
  }

  lemma NumberedDistinct(sorted: seq<Handle>, numbered: seq<Handle>, artifacts: nat)
    requires DistinctLines(sorted) && NumberedTo(sorted, numbered, |sorted|, artifacts)
    ensures DistinctLines(numbered)
  {
    forall i, j | 0 <= i < j < |numbered| ensures LineOfHandle(numbered[i]) != LineOfHandle(numbered[j]) {
      assert LineOfHandle(sorted[i]) != LineOfHandle(sorted[j]);
    }
  }

  lemma NumberingKeepsLines(sorted: seq<Handle>, numbered: seq<Handle>, artifacts: nat)
    requires NumberedTo(sorted, numbered, |sorted|, artifacts)
    ensures HandleLines(numbered) == HandleLines(sorted)
  {
    forall l ensures l in HandleLines(numbered) <==> l in HandleLines(sorted) {
      if l in HandleLines(numbered) {
        var h :| h in numbered && LineOfHandle(h) == l;
        var i :| 0 <= i < |numbered| && numbered[i] == h;
        assert sorted[i] in sorted;
      }
      if l in HandleLines(sorted) {
        var h :| h in sorted && LineOfHandle(h) == l;
        var i :| 0 <= i < |sorted| && sorted[i] == h;
        assert numbered[i] in numbered;
      }
    }
  }

  // ------------------------------------------------------------------ the whole construction

  /** What the built handles are: for both validators canonical, at most 64 per root, each a usable
      line of an observed range; and, unless truncated, one for every such line. */
  ghost predicate IsBuild(files: Files, ranges: seq<Range>, handles: seq<Handle>, d: Diagnostics) {
    && CanonicalHandles(files, handles) && d.status != Rejected
    && (forall root :: |LinesOf(HandleLines(handles), root)| <= MAX_PER_ROOT)
    && (forall l :: l in HandleLines(handles) ==> Observed(files, ranges, l))
    && (!d.truncated ==> forall l :: Observed(files, ranges, l) ==> l in HandleLines(handles))
    && CountsHandles(handles, d) && InReadingOrder(handles, d.artifacts)
    && (d.dropped <= 512 ==> |ranges| <= |handles| + d.dropped)
    && (d.status == Accepted <==> d.codes == [])
    && (forall c :: Name(c) in d.codes ==> IsSoft(c) || SomeFlawed(files, ranges, c))
    && (!d.truncated ==> forall c :: SomeFlawed(files, ranges, c) ==> Name(c) in d.codes)
    && (forall o, c :: o in ranges ==> !Fatal(files, Trimmed(files, o), c))
    && TakenInOrder(files, ranges, HandleLines(handles))
  }

  /** The selected ranges in the order they are taken: artifacts first, narrow ranges first. */
  function Arranged(files: Files, ranges: seq<Range>): seq<Range> {
    Sort(RangeAtMost, FirstSelected(files, ranges, ARTIFACTS)) + Sort(RangeAtMost, FirstSelected(files, ranges, SOURCE))
  }

  /** Whatever a selected range supports is a line of the build, unless the root had its 64 lines from
      ranges no later in the order, or the file did not fit beside those opened before. */
  ghost predicate TakenInOrder(files: Files, ranges: seq<Range>, lines: set<Line>) {
    Greedy(files, Arranged(files, ranges), |Arranged(files, ranges)|, lines)
  }

  /** The diagnostics count the handles of each root; artifacts come first. */
  predicate CountsHandles(handles: seq<Handle>, d: Diagnostics) {
    && 1 <= d.artifacts <= |handles| && d.artifacts + d.sources == |handles|
    && forall i :: 0 <= i < |handles| ==> handles[i].root == if i < d.artifacts then ARTIFACTS else SOURCE
  }

  /** The handles of a root carry its numbers from 1 on, by path and then by line. */
  predicate InReadingOrder(handles: seq<Handle>, artifacts: int) {
    && (forall i :: 0 <= i < |handles| ==>
          var number := if i < artifacts then i + 1 else i + 1 - artifacts; 0 < number < 1000 && handles[i].id == Id(handles[i].root, number))
    && forall i, j :: 0 <= i < j < |handles| && handles[i].root == handles[j].root ==>
         Less(handles[i].path, handles[j].path) || (handles[i].path == handles[j].path && handles[i].lineStart < handles[j].lineStart)
  }

  lemma NumberedInOrder(sorted: seq<Handle>, numbered: seq<Handle>, artifacts: nat)
    requires Numbering(sorted, numbered, |sorted|, artifacts) && Sorted(HandleAtMost, sorted) && DistinctLines(sorted)
    ensures InReadingOrder(numbered, artifacts)
  {
    forall i, j | 0 <= i < j < |numbered| && numbered[i].root == numbered[j].root
      ensures Less(numbered[i].path, numbered[j].path) ||
              (numbered[i].path == numbered[j].path && numbered[i].lineStart < numbered[j].lineStart)
    {
      assert HandleAtMost(sorted[i], sorted[j]);
      assert LineOfHandle(sorted[i]) != LineOfHandle(sorted[j]);
    }
  }

  ghost predicate SomeFlawed(files: Files, ranges: seq<Range>, c: Code) {
    exists o :: o in ranges && Flawed(files, Trimmed(files, o), c)
  }

  /** What a refusal may be for: time, a range under no known root or with an unsafe path, or no
      artifact line to show. */
  ghost predicate RefusedFor(files: Files, ranges: seq<Range>, d: Diagnostics, reason: Code) {
    match reason
    case Timeout => true
    case RootInvalid => exists o :: o in ranges && Fatal(files, Trimmed(files, o), RootInvalid)
    case PathInvalid => exists o :: o in ranges && (Fatal(files, Trimmed(files, o), PathInvalid) || files.read(o.root, files.trim(o.path)).UnsafePath?)
    case ArtifactsMissing => d.artifacts == 0 && (d.truncated || forall l :: Observed(files, ranges, l) ==> l.root == SOURCE)
    case _ => false
  }

  ghost predicate IsRefusal(files: Files, ranges: seq<Range>, d: Diagnostics) {
    d.status == Rejected && exists reason :: Name(reason) in d.codes && RefusedFor(files, ranges, d, reason)
  }

  /** What the diagnostics say, accepted or not: valid, and no drop or cut without a code. */
  predicate IsDiagnosis(ranges: seq<Range>, d: Diagnostics) {
    && ValidDiagnostics(d) && d.status != NoStatus
    && d.observed == (if |ranges| <= MAX_RANGES then |ranges| else MAX_RANGES + 1)
    && (d.dropped > 0 ==> d.codes != []) && (d.truncated ==> Name(Truncated) in d.codes)
  }

  method Diagnose(builder: Builder, ranges: seq<Range>, status: Status, artifacts: nat, sources: nat) returns (d: Diagnostics)
    requires builder.Tallied() && builder.drops <= |ranges| && artifacts <= MAX_PER_ROOT && sources <= MAX_PER_ROOT
    requires status == Rejected || (status == Accepted && artifacts > 0)
    requires status == Rejected ==> builder.codes != {}
    ensures IsDiagnosis(ranges, d) && d.truncated == builder.truncated && (d.status == Rejected <==> status == Rejected)
    ensures d.artifacts == artifacts && d.sources == sources && d.dropped == builder.dropped
    ensures d.status == Accepted <==> status == Accepted && d.codes == []
    ensures forall c :: Name(c) in d.codes <==> c in builder.codes
  {
    var codes := FinishCodes(builder.codes);
    assert builder.codes != {} ==> codes != [] by {
      if builder.codes != {} {
        var code :| code in builder.codes;
        assert Name(code) in codes;
      }
    }
    assert codes != [] ==> builder.codes != {} by {
      if codes != [] { assert codes[0] in codes; }
    }
    forall i | 0 <= i < |codes| ensures ValidCode(codes[i]) { assert codes[i] in codes; }
    forall c ensures Name(c) in codes <==> c in builder.codes {
      if Name(c) in codes {
        var code :| code in builder.codes && Name(code) == Name(c);
        if code != c { NamesDiffer(code, c); }
      }
    }
    d := Diagnostics(if status == Accepted && codes != [] then AcceptedWithWarnings else status,
                     if |ranges| <= MAX_RANGES then |ranges| else MAX_RANGES + 1,
                     artifacts, sources, builder.dropped, builder.truncated, codes);
  }

  method Reject(builder: Builder, ranges: seq<Range>, code: Code, artifacts: nat, sources: nat) returns (result: BuildResult)
    requires builder.Tallied() && builder.drops <= |ranges| && artifacts <= MAX_PER_ROOT && sources <= MAX_PER_ROOT
    modifies builder
    ensures result.Refused? && IsDiagnosis(ranges, result.diagnostics) && result.diagnostics.status == Rejected
    ensures Name(code) in result.diagnostics.codes && result.diagnostics.artifacts == artifacts && result.diagnostics.sources == sources
    ensures result.diagnostics.truncated == old(builder.truncated)
  {
    builder.AddCode(code);
    var d := Diagnose(builder, ranges, Rejected, artifacts, sources);
    result := Refused(d);
  }

  lemma SortedIsNumberable(builder: Builder, sorted: seq<Handle>)
    requires builder.Counted() && sorted == Sort(HandleAtMost, builder.handles)
    ensures Numberable(builder.files, sorted) && HandleLines(sorted) == builder.seenLines
  {
    HandleOrder();
    SortSorts(HandleAtMost, builder.handles);
    MembersOfPermutation(builder.handles, sorted);
    SameMembersSameLines(builder.handles, sorted);
    assert builder.Count(ARTIFACTS) == |LinesOf(builder.seenLines, ARTIFACTS)|;
    assert builder.Count(SOURCE) == |LinesOf(builder.seenLines, SOURCE)|;
    DistinctLinesPermute(builder.handles, sorted);
  }

  lemma SameMembersSameLines(s: seq<Handle>, t: seq<Handle>)
    requires forall h :: h in s <==> h in t
    ensures HandleLines(s) == HandleLines(t)
  {
  }

  lemma DistinctLinesPermute(s: seq<Handle>, t: seq<Handle>)
    requires multiset(s) == multiset(t) && DistinctLines(s)
    ensures DistinctLines(t)
  {
    DistinctPermutation(s, t);
    MembersOfPermutation(s, t);
    forall i, j | 0 <= i < j < |t| ensures LineOfHandle(t[i]) != LineOfHandle(t[j]) {
      assert t[i] in s && t[j] in s && t[i] != t[j];
      var a :| 0 <= a < |s| && s[a] == t[i];
      var b :| 0 <= b < |s| && s[b] == t[j];
    }
  }

  /** The selected ranges account for exactly the observed lines. */
  lemma ChosenMeansObserved(files: Files, ranges: seq<Range>, artifacts: seq<Range>, sources: seq<Range>, chosen: seq<Range>,
                            lines: set<Line>, wasTruncated: bool, truncated: bool)
    requires Selection(files, ranges, |ranges|, artifacts, sources, wasTruncated) && (wasTruncated ==> truncated)
    requires forall r :: r in chosen <==> r in artifacts || r in sources
    requires SupportedBy(files, lines, chosen) && (truncated || AllCovered(files, lines, chosen))
    ensures forall l :: l in lines ==> Observed(files, ranges, l)
    ensures !truncated ==> forall l :: Observed(files, ranges, l) ==> l in lines
  {
    forall l | l in lines ensures Observed(files, ranges, l) {
      var r :| r in chosen && Supports(files, r, l);
      assert IsChosen(files, ranges, r);
      var o :| o in ranges && Trimmed(files, o) == r;
    }
    if !truncated {
      forall l | Observed(files, ranges, l) ensures l in lines {
        var o :| o in ranges && Supports(files, Trimmed(files, o), l);
        var i :| 0 <= i < |ranges| && ranges[i] == o;
        assert Trimmed(files, ranges[i]) in artifacts + sources;
        assert Covered(files, lines, Trimmed(files, o));
      }
    }
  }

  /** buildWorkspaceEvidenceHandles. */
  method Build(files: Files, ranges: seq<Range>, expired: nat -> bool) returns (result: BuildResult)
    ensures IsDiagnosis(ranges, result.diagnostics)
    ensures result.Built? ==> IsBuild(files, ranges, result.handles, result.diagnostics)
    ensures result.Refused? ==> IsRefusal(files, ranges, result.diagnostics)
  {
    var builder := new Builder(files);
    var late := builder.DeadlineExceeded();
    if late {
      result := Reject(builder, ranges, Timeout, 0, 0);
      assert RefusedFor(files, ranges, result.diagnostics, Timeout);
      return;
    }
    var failure := Gather(builder, ranges, expired);
    if failure.Some? {
      result := Reject(builder, ranges, failure.value, 0, 0);
      FailureIsReason(files, ranges, result.diagnostics, failure.value);
      return;
    }
    result := Finish(builder, ranges);
  }

  lemma FailureIsReason(files: Files, ranges: seq<Range>, d: Diagnostics, c: Code)
    requires c == Timeout || GatheringFails(files, ranges, c)
    ensures RefusedFor(files, ranges, d, c)
  {
  }

  /** Everything a finished gathering gives. */
  ghost predicate Gathered(builder: Builder, ranges: seq<Range>)
    reads builder
  {
    && builder.Tallied() && builder.Counted() && builder.drops <= |ranges| <= |builder.handles| + builder.drops
    && (forall l :: l in builder.seenLines ==> Observed(builder.files, ranges, l))
    && (!builder.truncated ==> forall l :: Observed(builder.files, ranges, l) ==> l in builder.seenLines)
    && CodesAreExact(builder.files, ranges, builder.codes, builder.truncated)
    && TakenInOrder(builder.files, ranges, builder.seenLines)
  }

  /** The sorted and numbered handles of a builder. */
  ghost predicate Presents(builder: Builder, handles: seq<Handle>, artifacts: nat, sources: nat)
    reads builder
  {
    && CanonicalHandles(builder.files, handles) && HandleLines(handles) == builder.seenLines && |handles| == |builder.handles|
    && InReadingOrder(handles, artifacts)
    && artifacts + sources == |handles| && artifacts <= MAX_PER_ROOT && sources <= MAX_PER_ROOT
    && forall i :: 0 <= i < |handles| ==> handles[i].root == if i < artifacts then ARTIFACTS else SOURCE
  }

  /** Sort and number the handles and check them. */
  method Present(builder: Builder) returns (handles: seq<Handle>, artifacts: nat, sources: nat)
    requires builder.Counted()
    ensures Presents(builder, handles, artifacts, sources)
  {
    var files, sorted := builder.files, Sort(HandleAtMost, builder.handles);
    SortedIsNumberable(builder, sorted);
    handles, artifacts, sources := Number(files, sorted);
    NumberedIsCanonical(files, sorted, handles, artifacts);
    NumberingKeepsLines(sorted, handles, artifacts);
    NumberedInOrder(sorted, handles, artifacts);
    var valid := ValidateHandles(files, handles);
    if !valid { assert false; }
  }

  /** Sort, number and check the handles, and report. */
  method Finish(builder: Builder, ranges: seq<Range>) returns (result: BuildResult)
    requires Gathered(builder, ranges)
    modifies builder
    ensures IsDiagnosis(ranges, result.diagnostics)
    ensures result.Built? ==> IsBuild(builder.files, ranges, result.handles, result.diagnostics)
    ensures result.Refused? ==> IsRefusal(builder.files, ranges, result.diagnostics)
  {
    var files := builder.files;
    var handles, artifacts, sources := Present(builder);
    if artifacts == 0 {
      NoArtifactLines(handles);
      result := Reject(builder, ranges, ArtifactsMissing, artifacts, sources);
      assert RefusedFor(files, ranges, result.diagnostics, ArtifactsMissing);
      return;
    }
    var late := builder.DeadlineExceeded();
    if late {
      result := Reject(builder, ranges, Timeout, artifacts, sources);
      assert RefusedFor(files, ranges, result.diagnostics, Timeout);
      return;
    }
    var d := Diagnose(builder, ranges, Accepted, artifacts, sources);
    PresentedIsBuild(builder, ranges, handles, artifacts, sources, d);
    result := Built(handles, d);
  }

  /** The diagnostics are those of an accepted build of this builder. */
  ghost predicate Reports(builder: Builder, d: Diagnostics, artifacts: nat, sources: nat)
    reads builder
  {
    && d.truncated == builder.truncated && d.status != Rejected && d.artifacts == artifacts && d.sources == sources
    && d.dropped == builder.dropped && (d.status == Accepted <==> d.codes == []) && forall c :: Name(c) in d.codes <==> c in builder.codes
  }

  lemma PresentedIsBuild(builder: Builder, ranges: seq<Range>, handles: seq<Handle>, artifacts: nat, sources: nat, d: Diagnostics)
    requires Gathered(builder, ranges) && Presents(builder, handles, artifacts, sources) && artifacts > 0
    requires Reports(builder, d, artifacts, sources)
    ensures IsBuild(builder.files, ranges, handles, d)
  {
    FewPerRoot(builder, handles);
  }

  lemma FewPerRoot(builder: Builder, handles: seq<Handle>)
    requires builder.Counted() && HandleLines(handles) == builder.seenLines
    ensures forall root :: |LinesOf(HandleLines(handles), root)| <= MAX_PER_ROOT
  {
    forall root ensures |LinesOf(HandleLines(handles), root)| <= MAX_PER_ROOT { assert builder.Count(root) <= MAX_PER_ROOT; }
  }

  lemma NoArtifactLines(handles: seq<Handle>)
    requires forall i :: 0 <= i < |handles| ==> handles[i].root == SOURCE
    ensures forall l :: l in HandleLines(handles) ==> l.root == SOURCE
  {
  }

  /** Some range is fatal, or its file turns out to be unsafe. */
  ghost predicate GatheringFails(files: Files, ranges: seq<Range>, c: Code) {
    exists o :: o in ranges && (Fatal(files, Trimmed(files, o), c) || (c == PathInvalid && files.read(o.root, files.trim(o.path)).UnsafePath?))
  }

  /** The codes are the soft ones and those of the flaws there are, all of them unless truncated; and
      nothing was fatal. */
  ghost predicate CodesAreExact(files: Files, ranges: seq<Range>, codes: set<Code>, truncated: bool) {
    && (forall c :: c in codes ==> IsSoft(c) || SomeFlawed(files, ranges, c))
    && (!truncated ==> forall c :: SomeFlawed(files, ranges, c) ==> c in codes)
    && forall o, c :: o in ranges ==> !Fatal(files, Trimmed(files, o), c)
  }

  lemma BothLoopsExplain(files: Files, ranges: seq<Range>, artifacts: seq<Range>, sources: seq<Range>, chosen: seq<Range>,
                         first: set<Code>, codes: set<Code>, wasTruncated: bool, truncated: bool)
    requires Screened(files, ranges, |ranges|, {}, first) && Selection(files, ranges, |ranges|, artifacts, sources, wasTruncated)
    requires Accounted(files, chosen, |chosen|, first, codes, truncated) && (wasTruncated ==> truncated)
    requires forall r :: r in chosen <==> r in artifacts || r in sources
    ensures CodesAreExact(files, ranges, codes, truncated)
  {
    forall c | c in codes && !IsSoft(c) ensures SomeFlawed(files, ranges, c) {
      if c !in first {
        var r :| r in chosen && Flawed(files, r, c);
        assert IsChosen(files, ranges, r);
      }
    }
    forall o, c | o in ranges ensures !Fatal(files, Trimmed(files, o), c) {
      var i :| 0 <= i < |ranges| && ranges[i] == o;
    }
    if !truncated {
      forall c | SomeFlawed(files, ranges, c) ensures c in codes {
        var o :| o in ranges && Flawed(files, Trimmed(files, o), c);
        FlawIsReported(files, ranges, artifacts, sources, chosen, first, codes, o, c);
      }
    }
  }

  lemma FlawIsReported(files: Files, ranges: seq<Range>, artifacts: seq<Range>, sources: seq<Range>, chosen: seq<Range>,
                       first: set<Code>, codes: set<Code>, o: Range, c: Code)
    requires Screened(files, ranges, |ranges|, {}, first) && Selection(files, ranges, |ranges|, artifacts, sources, false)
    requires Accounted(files, chosen, |chosen|, first, codes, false)
    requires forall r :: r in chosen <==> r in artifacts || r in sources
    requires o in ranges && Flawed(files, Trimmed(files, o), c)
    ensures c in codes
  {
    var i :| 0 <= i < |ranges| && ranges[i] == o;
    var r := Trimmed(files, o);
    if Selectable(files, r) {
      assert r in artifacts + sources;
      var k :| 0 <= k < |chosen| && chosen[k] == r;
      assert Reported(files, codes, chosen[k]);
    } else {
      assert Reported(files, first, Trimmed(files, ranges[i]));
    }
  }

  method Arrange(artifacts: seq<Range>, sources: seq<Range>) returns (chosen: seq<Range>)
    ensures chosen == Sort(RangeAtMost, artifacts) + Sort(RangeAtMost, sources)
    ensures forall r :: r in chosen <==> r in artifacts || r in sources
    ensures |chosen| == |artifacts| + |sources|
  {
    RangeOrder();
    SortSorts(RangeAtMost, artifacts);
    SortSorts(RangeAtMost, sources);
    MembersOfPermutation(artifacts, Sort(RangeAtMost, artifacts));
    MembersOfPermutation(sources, Sort(RangeAtMost, sources));
    chosen := Sort(RangeAtMost, artifacts) + Sort(RangeAtMost, sources);
  }

  /** Both loops of the construction. */
  method Gather(builder: Builder, ranges: seq<Range>, expired: nat -> bool) returns (failure: Option<Code>)
    requires builder.Tallied() && builder.Counted() && builder.Cached() && builder.seenLines == {} && builder.drops == 0
    requires builder.codes == {} && builder.held == []
    modifies builder
    ensures builder.Tallied() && builder.drops <= |ranges|
    ensures failure.Some? ==> failure == Some(Timeout) || GatheringFails(builder.files, ranges, failure.value)
    ensures failure.None? ==> Gathered(builder, ranges)
  {
    var artifacts, sources;
    failure, artifacts, sources := builder.SelectRanges(ranges);
    if failure.Some? {
      if failure != Some(Timeout) { ScreeningFails(builder.files, ranges, failure.value); }
      return;
    }
    var chosen := Arrange(artifacts, sources);
    var late := builder.DeadlineExceeded();
    if late { return Some(Timeout); }
    failure := TakeChosen(builder, ranges, artifacts, sources, chosen, expired);
  }

  lemma ScreeningFails(files: Files, ranges: seq<Range>, c: Code)
    requires exists k :: 0 <= k < |ranges| && Fatal(files, Trimmed(files, ranges[k]), c)
    ensures GatheringFails(files, ranges, c)
  {
    var k :| 0 <= k < |ranges| && Fatal(files, Trimmed(files, ranges[k]), c);
    assert ranges[k] in ranges;
  }

  /** The second loop, over what the first one selected. */
  method TakeChosen(builder: Builder, ranges: seq<Range>, artifacts: seq<Range>, sources: seq<Range>, chosen: seq<Range>, expired: nat -> bool)
    returns (failure: Option<Code>)
    requires builder.Tallied() && builder.Counted() && builder.Cached() && builder.seenLines == {}
    requires Selection(builder.files, ranges, |ranges|, artifacts, sources, builder.truncated)
    requires Screened(builder.files, ranges, |ranges|, {}, builder.codes)
    requires builder.drops + |chosen| == |ranges| && forall r :: r in chosen <==> r in artifacts || r in sources
    requires builder.held == [] && chosen == Sort(RangeAtMost, artifacts) + Sort(RangeAtMost, sources)
    modifies builder
    ensures builder.Tallied() && builder.drops <= |ranges|
    ensures failure.Some? ==> failure == Some(Timeout) || GatheringFails(builder.files, ranges, failure.value)
    ensures failure.None? ==> Gathered(builder, ranges)
  {
    ghost var wasTruncated, first := builder.truncated, builder.codes;
    forall r | r in chosen ensures Selectable(builder.files, r) && IsChosen(builder.files, ranges, r) {
      assert IsChosen(builder.files, ranges, r);
    }
    assert ranges[..|ranges|] == ranges;
    assert chosen == Arranged(builder.files, ranges);
    failure := builder.TakeRanges(chosen, expired);
    if failure.None? {
      ChosenMeansObserved(builder.files, ranges, artifacts, sources, chosen, builder.seenLines, wasTruncated, builder.truncated);
      BothLoopsExplain(builder.files, ranges, artifacts, sources, chosen, first, builder.codes, wasTruncated, builder.truncated);
    } else if failure != Some(Timeout) {
      UnsafeChosen(builder.files, ranges, chosen);
    }
  }

  lemma UnsafeChosen(files: Files, ranges: seq<Range>, chosen: seq<Range>)
    requires forall r :: r in chosen ==> IsChosen(files, ranges, r)
    requires exists r :: r in chosen && files.read(r.root, r.path).UnsafePath?
    ensures GatheringFails(files, ranges, PathInvalid)
  {
    var r :| r in chosen && files.read(r.root, r.path).UnsafePath?;
    assert IsChosen(files, ranges, r);
    var o :| o in ranges && Trimmed(files, o) == r;
  }
}
