/** Which lines a truncated build keeps: ranges are taken narrowest first, and a line is only missing
    for a reason that can be named. */
module EvidenceOrder {
  import opened Wrappers
  import opened Order
  import opened EvidenceIndex
  import opened EvidenceHandles
  import opened EvidenceBuilder
  import opened EvidenceBuild
  import opened QuoteText

  // ------------------------------------------------------------------ the ranges selected

  /** Positions of the ranges selected for a root: the first 512 that are worth opening. */
  ghost predicate SelectedAt(files: Files, ranges: seq<Range>, root: string, selected: seq<Range>, at: seq<nat>) {
    && |at| == |selected| <= 512 && (forall m, n :: 0 <= m < n < |at| ==> at[m] < at[n])
    && (forall n :: 0 <= n < |at| ==> at[n] < |ranges| && selected[n] == Trimmed(files, ranges[at[n]]))
    && forall k :: 0 <= k < |ranges| ==>
         (k in at <==> WorthOpening(files, ranges[k], root) && (|at| < 512 || k <= at[|at| - 1]))
  }

  /** A range of the root with a safe path to a regular file and lines in order. */
  predicate WorthOpening(files: Files, o: Range, root: string) {
    var path := files.trim(o.path);
    && (root == "artifacts" || root == "source") && o.root == root && files.isSafe(path) && files.stat(root, path).Regular?
    && 1 <= o.lineStart <= o.lineEnd
  }

  lemma SelectOneMore(files: Files, ranges: seq<Range>, root: string, selected: seq<Range>, at: seq<nat>)
    requires ranges != [] && SelectedAt(files, ranges[..|ranges| - 1], root, selected, at)
    ensures var k := |ranges| - 1;
            if WorthOpening(files, ranges[k], root) && |at| < 512
            then SelectedAt(files, ranges, root, selected + [Trimmed(files, ranges[k])], at + [k])
            else SelectedAt(files, ranges, root, selected, at)
  {
    var k := |ranges| - 1;
    assert forall n :: n in at + [k] <==> n in at || n == k;
    assert forall n :: 0 <= n < |at| ==> at[n] in at;
    assert forall n :: 0 <= n < k ==> ranges[..k][n] == ranges[n];
  }

  lemma {:induction false} SelectionIsExact(files: Files, ranges: seq<Range>, root: string) returns (at: seq<nat>)
    ensures SelectedAt(files, ranges, root, FirstSelected(files, ranges, root), at)
    decreases |ranges|
  {
    at := [];
    if ranges != [] {
      var k := |ranges| - 1;
      at := SelectionIsExact(files, ranges[..k], root);
      SelectOneMore(files, ranges, root, FirstSelected(files, ranges[..k], root), at);
      if WorthOpening(files, ranges[k], root) && |at| < 512 { at := at + [k]; }
    }
  }

  // ------------------------------------------------------------------ the order they are taken in

  function Width(r: Range): int {
    r.lineEnd - r.lineStart
  }

  /** Fewer lines first, then by path, then by first line. */
  predicate TakenBefore(a: Range, b: Range) {
    || Width(a) < Width(b)
    || (Width(a) == Width(b) && (Less(a.path, b.path) || (a.path == b.path && a.lineStart <= b.lineStart)))
  }

  lemma SelectedRoots(files: Files, ranges: seq<Range>, root: string, r: Range)
    requires r in FirstSelected(files, ranges, root)
    ensures r.root == root && exists o :: o in ranges && Trimmed(files, o) == r && WorthOpening(files, o, root)
  {
    var at := SelectionIsExact(files, ranges, root);
    var n :| 0 <= n < |at| && FirstSelected(files, ranges, root)[n] == r;
    assert at[n] in at && ranges[at[n]] in ranges;
  }

  /** The artifact ranges come first, and of one root the narrower. */
  lemma ArrangementIsExact(files: Files, ranges: seq<Range>, i: nat, j: nat)
    requires i < j < |Arranged(files, ranges)|
    ensures var a, b := Arranged(files, ranges)[i], Arranged(files, ranges)[j];
            (a.root == "artifacts" && b.root == "source") || (a.root == b.root && TakenBefore(a, b))
  {
    var first, second := Sort(RangeAtMost, FirstSelected(files, ranges, ARTIFACTS)), Sort(RangeAtMost, FirstSelected(files, ranges, SOURCE));
    ArrangedHalf(files, ranges, ARTIFACTS);
    ArrangedHalf(files, ranges, SOURCE);
    var all := Arranged(files, ranges);
    if j < |first| {
      assert all[i] in first && all[j] in first;
      assert RangeAtMost(first[i], first[j]);
    } else if i < |first| {
      assert all[i] in first && all[j] == second[j - |first|] && all[j] in second;
    } else {
      assert all[i] == second[i - |first|] && all[j] == second[j - |first|] && all[i] in second && all[j] in second;
      assert RangeAtMost(second[i - |first|], second[j - |first|]);
    }
  }

  lemma ArrangedHalf(files: Files, ranges: seq<Range>, root: string)
    ensures var half := Sort(RangeAtMost, FirstSelected(files, ranges, root));
            && Sorted(RangeAtMost, half) && (forall r :: r in half <==> r in FirstSelected(files, ranges, root))
            && forall r :: r in half ==> r.root == root
  {
    var selected := FirstSelected(files, ranges, root);
    RangeOrder();
    SortSorts(RangeAtMost, selected);
    MembersOfPermutation(selected, Sort(RangeAtMost, selected));
    forall r | r in selected ensures r.root == root { SelectedRoots(files, ranges, root, r); }
  }

  lemma ArrangedMembers(files: Files, ranges: seq<Range>, r: Range)
    ensures r in Arranged(files, ranges) <==> r in FirstSelected(files, ranges, ARTIFACTS) || r in FirstSelected(files, ranges, SOURCE)
  {
    ArrangedHalf(files, ranges, ARTIFACTS);
    ArrangedHalf(files, ranges, SOURCE);
  }

  // ------------------------------------------------------------------ why a line is missing

  /** 512 ranges of the root were selected, and this is none of them. */
  ghost predicate CameTooLate(files: Files, ranges: seq<Range>, r: Range) {
    r !in FirstSelected(files, ranges, r.root) && |FirstSelected(files, ranges, r.root)| == 512
  }

  /** The root has its 64 lines, all of them from observed ranges no wider than this one. */
  ghost predicate NarrowerTookAll(files: Files, ranges: seq<Range>, lines: set<Line>, r: Range) {
    && |LinesOf(lines, r.root)| == 64
    && forall l :: l in LinesOf(lines, r.root) ==> exists o :: o in ranges && Supports(files, Trimmed(files, o), l) && Width(o) <= Width(r)
  }

  /** The file would take the index cache of its root beyond 64 MiB, beside files of ranges taken before. */
  ghost predicate CacheIsFull(files: Files, ranges: seq<Range>, r: Range) {
    exists held :: HeldFor(files, ranges, held) && files.stat(r.root, r.path).Regular? && DoesNotFit(files, held, r, files.stat(r.root, r.path).size)
  }

  /** The files held are files of observed ranges. */
  ghost predicate HeldFor(files: Files, ranges: seq<Range>, held: seq<(string, string)>) {
    forall key :: key in held ==> exists o :: o in ranges && (o.root, files.trim(o.path)) == key
  }

  /** Every usable line of an observed range has a handle, or it came too late, or narrower ranges took
      all the places, or its file did not fit. */
  lemma MissingLineHasReason(files: Files, ranges: seq<Range>, handles: seq<Handle>, d: Diagnostics, o: Range, l: Line)
    requires IsBuild(files, ranges, handles, d) && o in ranges && Supports(files, Trimmed(files, o), l)
    ensures var r := Trimmed(files, o);
            || l in HandleLines(handles) || CameTooLate(files, ranges, r)
            || NarrowerTookAll(files, ranges, HandleLines(handles), r) || CacheIsFull(files, ranges, r)
  {
    var r, lines, all := Trimmed(files, o), HandleLines(handles), Arranged(files, ranges);
    if r in FirstSelected(files, ranges, r.root) {
      ArrangedMembers(files, ranges, r);
      var i: nat :| i < |all| && all[i] == r;
      assert Settled(files, all, i, lines);
      if IsFull(files, all, i, lines) { FullIsNarrower(files, ranges, i, lines); }
      if IsCrowded(files, all, i) { CrowdedIsFull(files, ranges, i); }
    } else {
      LateIsLate(files, ranges, o);
    }
  }

  lemma LateIsLate(files: Files, ranges: seq<Range>, o: Range)
    requires o in ranges && UsableRange(files, Trimmed(files, o)) && Trimmed(files, o) !in FirstSelected(files, ranges, o.root)
    ensures CameTooLate(files, ranges, Trimmed(files, o))
  {
    var at := SelectionIsExact(files, ranges, o.root);
    var k :| 0 <= k < |ranges| && ranges[k] == o;
    assert WorthOpening(files, ranges[k], o.root);
  }

  lemma FullIsNarrower(files: Files, ranges: seq<Range>, i: nat, lines: set<Line>)
    requires i < |Arranged(files, ranges)| && IsFull(files, Arranged(files, ranges), i, lines)
    ensures NarrowerTookAll(files, ranges, lines, Arranged(files, ranges)[i])
  {
    var all := Arranged(files, ranges);
    var r := all[i];
    forall l | l in LinesOf(lines, r.root) ensures exists o :: o in ranges && Supports(files, Trimmed(files, o), l) && Width(o) <= Width(r) {
      var q :| q in all[..i + 1] && Supports(files, q, l);
      var j :| 0 <= j <= i && all[j] == q;
      if j < i { ArrangementIsExact(files, ranges, j, i); }
      var o := ObservedAs(files, ranges, j);
    }
  }

  lemma ObservedAs(files: Files, ranges: seq<Range>, j: nat) returns (o: Range)
    requires j < |Arranged(files, ranges)|
    ensures o in ranges && Trimmed(files, o) == Arranged(files, ranges)[j]
  {
    var q := Arranged(files, ranges)[j];
    ArrangedMembers(files, ranges, q);
    if q in FirstSelected(files, ranges, ARTIFACTS) {
      SelectedRoots(files, ranges, ARTIFACTS, q);
    } else {
      SelectedRoots(files, ranges, SOURCE, q);
    }
    o :| o in ranges && Trimmed(files, o) == q;
  }

  lemma CrowdedIsFull(files: Files, ranges: seq<Range>, i: nat)
    requires i < |Arranged(files, ranges)| && IsCrowded(files, Arranged(files, ranges), i)
    ensures CacheIsFull(files, ranges, Arranged(files, ranges)[i])
  {
    var all := Arranged(files, ranges);
    var r := all[i];
    var held :| OpenedBefore(all, i, held) && files.stat(r.root, r.path).Regular? && DoesNotFit(files, held, r, files.stat(r.root, r.path).size);
    forall key | key in held ensures exists o :: o in ranges && (o.root, files.trim(o.path)) == key {
      var j :| 0 <= j < i && (all[j].root, all[j].path) == key;
      var o := ObservedAs(files, ranges, j);
    }
    assert HeldFor(files, ranges, held);
  }

  // ------------------------------------------------------------------ what the codes tell

  /** A build stands on ranges under the two roots whose paths are safe and do not leave them. */
  lemma BuiltRangesAreSafe(files: Files, ranges: seq<Range>, handles: seq<Handle>, d: Diagnostics, o: Range)
    requires IsBuild(files, ranges, handles, d) && o in ranges
    ensures (o.root == "artifacts" || o.root == "source") && files.isSafe(files.trim(o.path))
    ensures 1 <= o.lineStart <= o.lineEnd ==> !files.stat(o.root, files.trim(o.path)).Escaping?
  {
    assert !Fatal(files, Trimmed(files, o), RootInvalid) && !Fatal(files, Trimmed(files, o), PathInvalid);
  }

  /** A complete build names every range without lines, without a file, without text, or with a line
      that cannot be quoted. */
  lemma FlawsAreNamed(files: Files, ranges: seq<Range>, handles: seq<Handle>, d: Diagnostics, o: Range, n: int)
    requires IsBuild(files, ranges, handles, d) && !d.truncated && o in ranges
    ensures var path := files.trim(o.path);
            var stat, text := files.stat(o.root, path), files.read(o.root, path);
            && (o.lineStart < 1 || o.lineEnd < o.lineStart ==> Name(LineInvalid) in d.codes)
            && (1 <= o.lineStart <= o.lineEnd && (stat.NoFile? || (stat.Regular? && text.NotText?)) ==> Name(Unreadable) in d.codes)
            && (stat.Regular? && text.Text? && o.lineStart <= n <= o.lineEnd && !UsableLine(files, Line(o.root, path, n)) ==>
                  Name(LineInvalid) in d.codes)
  {
    var r := Trimmed(files, o);
    forall c | Flawed(files, r, c) ensures Name(c) in d.codes { assert SomeFlawed(files, ranges, c); }
  }

  /** Only line and file flaws are named, besides repetitions and cuts; so a build with no code had
      nothing wrong in any range. */
  lemma OnlyFlawsAreNamed(files: Files, ranges: seq<Range>, handles: seq<Handle>, d: Diagnostics, c: Code)
    requires IsBuild(files, ranges, handles, d) && Name(c) in d.codes
    ensures c == Duplicate || c == Truncated || c == RangeOverflow || c == LineInvalid || c == Unreadable
    ensures c == Unreadable ==> exists o :: o in ranges && !UsableRange(files, Trimmed(files, o))
  {
    if !IsSoft(c) {
      var o :| o in ranges && Flawed(files, Trimmed(files, o), c);
      assert c == Unreadable ==> !UsableRange(files, Trimmed(files, o));
    }
  }

  /** A handle stands for one line of text, not blank and of at most 2048 bytes, inside an observed
      range that its file has in full. */
  ghost predicate StandsFor(files: Files, h: Handle, o: Range, text: string) {
    && o.root == h.root && files.trim(o.path) == h.path && 1 <= o.lineStart <= h.lineStart == h.lineEnd <= o.lineEnd
    && files.read(h.root, h.path).Text? && o.lineEnd <= LineCount(files.read(h.root, h.path).content)
    && IsTextOfLines(files.read(h.root, h.path).content, h.lineStart, h.lineStart, text) && files.trim(text) != "" && |text| <= 2048
  }

  lemma HandlesStandForText(files: Files, ranges: seq<Range>, handles: seq<Handle>, d: Diagnostics, h: Handle)
    requires IsBuild(files, ranges, handles, d) && h in handles
    ensures exists o, text :: o in ranges && StandsFor(files, h, o, text)
  {
    assert LineOfHandle(h) in HandleLines(handles);
    var o :| o in ranges && Supports(files, Trimmed(files, o), LineOfHandle(h));
    var content := files.read(h.root, h.path).content;
    LineCountIsExact(content);
    QuoteIsFileText(content, h.lineStart, h.lineStart, files.trim);
    var text := CanonicalQuote(content, h.lineStart, h.lineStart, files.trim).value;
    assert ValidHandle(files, h);
    assert StandsFor(files, h, o, text);
  }
}
