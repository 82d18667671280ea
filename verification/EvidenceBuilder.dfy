/** Building evidence handles from observed ranges. Every deadline check is a nondeterministic
    choice, so the results hold for every deadline and clock. */
module EvidenceBuilder {
  import opened Wrappers
  import opened Order
  import opened EvidenceIndex
  import opened EvidenceHandles

  // ------------------------------------------------------------------ what handles stand for

  /** Line l of the workspace is text that a citation may quote. */
  predicate UsableLine(files: Files, l: Line) {
    var text := files.read(l.root, l.path);
    text.Text? && CanonicalQuote(text.content, l.number, l.number, files.trim).Some?
  }

  /** An observed range, its path trimmed, of a readable regular file that has all its lines. */
  predicate UsableRange(files: Files, r: Range) {
    var text := files.read(r.root, r.path);
    && KnownRoot(r.root) && files.isSafe(r.path) && files.stat(r.root, r.path).Regular?
    && text.Text? && 1 <= r.lineStart <= r.lineEnd <= |Lines(text.content)|
  }

  predicate InRange(r: Range, l: Line) {
    r.root == l.root && r.path == l.path && r.lineStart <= l.number <= r.lineEnd
  }

  function Trimmed(files: Files, r: Range): Range {
    r.(path := files.trim(r.path))
  }

  predicate Supports(files: Files, r: Range, l: Line) {
    UsableRange(files, r) && InRange(r, l) && UsableLine(files, l)
  }

  /** A usable line of some usable observed range. */
  ghost predicate Observed(files: Files, ranges: seq<Range>, l: Line) {
    exists r :: r in ranges && Supports(files, Trimmed(files, r), l)
  }

  /** Every line a range supports is among the seen lines. */
  ghost predicate Covered(files: Files, seen: set<Line>, r: Range) {
    forall l :: Supports(files, r, l) ==> l in seen
  }

  /** Codes that say how far the construction got, or what was asked twice, not what is wrong with a
      range. */
  predicate IsSoft(c: Code) {
    c == Duplicate || c == Truncated || c == RangeOverflow
  }

  /** The path is no safe one, or leads out of the root. */
  predicate IsUnsafe(files: Files, r: Range) {
    !files.isSafe(r.path) || (!BadLines(r) && files.stat(r.root, r.path).Escaping?)
  }

  /** A range the construction cannot go on with. */
  predicate Fatal(files: Files, r: Range, c: Code) {
    (c == RootInvalid && !KnownRoot(r.root)) || (c == PathInvalid && KnownRoot(r.root) && IsUnsafe(files, r))
  }

  predicate BadLines(r: Range) {
    r.lineStart < 1 || r.lineEnd < r.lineStart
  }

  /** What is wrong with a range under a known root and a safe path: no lines, a file that is missing
      or no text, or a line in it that cannot be quoted. */
  ghost predicate Flawed(files: Files, r: Range, c: Code) {
    match c
    case LineInvalid =>
      BadLines(r) || (files.stat(r.root, r.path).Regular? && files.read(r.root, r.path).Text? &&
                      exists n :: r.lineStart <= n <= r.lineEnd && !UsableLine(files, Line(r.root, r.path, n)))
    case Unreadable =>
      !BadLines(r) && (files.stat(r.root, r.path).NoFile? || (files.stat(r.root, r.path).Regular? && files.read(r.root, r.path).NotText?))
    case _ => false
  }

  /** Every new code says what is wrong with one of the ranges, or is a soft one. */
  ghost predicate Explained(files: Files, before: set<Code>, after: set<Code>, ranges: seq<Range>) {
    before <= after && forall c :: c in after && c !in before ==> IsSoft(c) || exists r :: r in ranges && Flawed(files, r, c)
  }

  ghost predicate ExplainedBy(files: Files, before: set<Code>, after: set<Code>, r: Range) {
    before <= after && forall c :: c in after && c !in before ==> IsSoft(c) || Flawed(files, r, c)
  }

  /** Whatever is wrong with the range has its code. */
  ghost predicate Reported(files: Files, codes: set<Code>, r: Range) {
    forall c :: Flawed(files, r, c) ==> c in codes
  }

  function LinesOf(seen: set<Line>, root: string): set<Line> {
    set l | l in seen && l.root == root
  }

  /** What the index of a file costs: its bytes, and eight for every 1024 lines begun. */
  function IndexBytes(files: Files, root: string, path: string): nat {
    match files.read(root, path)
    case Text(content) => if content == "" then 0 else |content| + ((|Lines(content)| - 1) / 1024 + 1) * 8
    case _ => 0
  }

  function TotalBytes(files: Files, held: seq<(string, string)>, root: string): nat {
    if held == [] then 0
    else
      var last := held[|held| - 1];
      TotalBytes(files, held[..|held| - 1], root) + if last.0 == root then IndexBytes(files, root, last.1) else 0
  }

  /** Opening the range's file beside those opened would take more than 64 MiB for its root. */
  predicate DoesNotFit(files: Files, held: seq<(string, string)>, r: Range, size: nat) {
    TotalBytes(files, held, r.root) + size > 67_108_864 || TotalBytes(files, held, r.root) + IndexBytes(files, r.root, r.path) > 67_108_864
  }

  lemma IndexBytesOf(files: Files, file: FileIndex, r: Range)
    requires files.read(r.root, r.path).Text? && IsIndexOf(file, files.read(r.root, r.path).content)
    ensures file.cacheBytes == IndexBytes(files, r.root, r.path)
  {
  }

  lemma OpenOne(files: Files, held: seq<(string, string)>, r: Range)
    ensures forall root :: TotalBytes(files, held + [(r.root, r.path)], root) ==
                           TotalBytes(files, held, root) + if r.root == root then IndexBytes(files, r.root, r.path) else 0
  {
    var longer := held + [(r.root, r.path)];
    assert longer[..|longer| - 1] == held && longer[|longer| - 1] == (r.root, r.path);
  }

  datatype BuildResult = Built(handles: seq<Handle>, diagnostics: Diagnostics) | Refused(diagnostics: Diagnostics)

  function HandleLines(handles: seq<Handle>): set<Line> {
    set h | h in handles :: LineOfHandle(h)
  }

  // ------------------------------------------------------------------ the order of ranges and handles

  /** Narrow ranges first, then by path and position. */
  predicate RangeAtMost(a: Range, b: Range) {
    if a.lineEnd - a.lineStart != b.lineEnd - b.lineStart then a.lineEnd - a.lineStart < b.lineEnd - b.lineStart
    else if a.path != b.path then Less(a.path, b.path)
    else a.lineStart <= b.lineStart
  }

  predicate HandleAtMost(a: Handle, b: Handle) {
    if a.root != b.root then Less(a.root, b.root)
    else if a.path != b.path then Less(a.path, b.path)
    else a.lineStart <= b.lineStart
  }

  lemma RangeOrder()
    ensures Preorder(RangeAtMost)
  {
    forall a, b ensures RangeAtMost(a, b) || RangeAtMost(b, a) { LessIsStrict(a.path, b.path); }
    forall a, b, c | RangeAtMost(a, b) && RangeAtMost(b, c) ensures RangeAtMost(a, c) {
      if Less(a.path, b.path) && Less(b.path, c.path) { LessIsTransitive(a.path, b.path, c.path); }
      LessIsStrict(a.path, b.path);
      LessIsStrict(b.path, c.path);
    }
  }

  lemma HandleOrder()
    ensures Preorder(HandleAtMost)
  {
    forall a, b ensures HandleAtMost(a, b) || HandleAtMost(b, a) {
      LessIsStrict(a.root, b.root);
      LessIsStrict(a.path, b.path);
    }
    forall a, b, c | HandleAtMost(a, b) && HandleAtMost(b, c) ensures HandleAtMost(a, c) { HandleAtMostIsTransitive(a, b, c); }
  }

  lemma HandleAtMostIsTransitive(a: Handle, b: Handle, c: Handle)
    requires HandleAtMost(a, b) && HandleAtMost(b, c)
    ensures HandleAtMost(a, c)
  {
    LessIsStrict(a.root, b.root);
    LessIsStrict(b.root, c.root);
    LessIsStrict(a.path, b.path);
    LessIsStrict(b.path, c.path);
    if Less(a.root, b.root) && Less(b.root, c.root) { LessIsTransitive(a.root, b.root, c.root); }
    if Less(a.path, b.path) && Less(b.path, c.path) { LessIsTransitive(a.path, b.path, c.path); }
  }

  // ------------------------------------------------------------------ the builder's state

  class Builder {
    const files: Files
    var codes: set<Code>
    var dropped: nat
    var truncated: bool
    var handles: seq<Handle>
    var seenLines: set<Line>
    var counts: map<string, nat>
    var contentCache: map<(string, string), FileIndex>
    var cacheBytes: map<string, nat>
    ghost var drops: nat
    ghost var held: seq<(string, string)>

    /** The bookkeeping of the diagnostics: bounded, and every drop and cut leaves a code. */
    ghost predicate Tallied()
      reads this`codes, this`dropped, this`truncated, this`drops
    {
      && dropped == (if drops <= MAX_RANGES then drops else MAX_RANGES + 1)
      && (drops > 0 ==> codes != {}) && (truncated ==> Truncated in codes)
    }

    function Count(root: string): nat
      reads this`counts
    {
      if root in counts then counts[root] else 0
    }

    /** One handle per seen line, at most 64 per root. */
    ghost predicate Counted()
      reads this`handles, this`seenLines, this`counts
    {
      && HandleLines(handles) == seenLines && DistinctLines(handles)
      && (forall h :: h in handles ==> KnownRoot(h.root) && files.isSafe(h.path) && h.lineStart >= 1 && h.lineEnd == h.lineStart)
      && (forall l :: l in seenLines ==> UsableLine(files, l))
      && (forall root :: Count(root) == |LinesOf(seenLines, root)| <= MAX_PER_ROOT)
    }

    /** The cache holds the files held, each root's bytes counted. */
    ghost predicate Cached()
      reads this`contentCache, this`cacheBytes, this`held
    {
      && (forall key :: key in contentCache ==> key in held && IsFileOf(contentCache[key], key.0, key.1))
      && (forall root :: Used(root) == TotalBytes(files, held, root))
    }

    function Used(root: string): nat
      reads this`cacheBytes
    {
      if root in cacheBytes then cacheBytes[root] else 0
    }

    constructor (files: Files)
      ensures this.files == files && Tallied() && Counted() && Cached()
      ensures codes == {} && handles == [] && seenLines == {} && drops == 0 && !truncated && held == []
    {
      this.files := files;
      codes, dropped, truncated, drops := {}, 0, false, 0;
      handles, seenLines, counts := [], {}, map[];
      contentCache, cacheBytes, held := map[], map[], [];
    }

    method AddCode(code: Code)
      requires Tallied()
      modifies this`codes
      ensures Tallied() && codes == old(codes) + {code}
    {
      codes := codes + {code};
    }

    /** Count a dropped range and say why. */
    method Drop(code: Code)
      requires Tallied()
      modifies this`codes, this`dropped, this`drops
      ensures Tallied() && codes == old(codes) + {code} && drops == old(drops) + 1
    {
      AddCode(code);
      DropRange();
    }

    /** Count a dropped range whose reason has been given. */
    method DropRange()
      requires Tallied() && codes != {}
      modifies this`dropped, this`drops
      ensures Tallied() && drops == old(drops) + 1
    {
      if dropped < MAX_RANGES + 1 { dropped := dropped + 1; }
      drops := drops + 1;
    }

    method Truncate()
      requires Tallied()
      modifies this`codes, this`truncated
      ensures Tallied() && codes == old(codes) + {Truncated} && truncated
    {
      truncated := true;
      codes := codes + {Truncated};
    }

    method DropTruncated()
      requires Tallied()
      modifies this`codes, this`dropped, this`drops, this`truncated
      ensures Tallied() && truncated && drops == old(drops) + 1 && codes == old(codes) + {Truncated}
    {
      Drop(Truncated);
      Truncate();
    }

    method DeadlineExceeded() returns (late: bool)
    {
      late := *;
    }

    // ---------------------------------------------------------------- one file

    /** A file's text and index are at hand. */
    ghost predicate IsFileOf(file: FileIndex, root: string, path: string) {
      files.read(root, path).Text? && IsIndexOf(file, files.read(root, path).content)
    }

    /** Read and index a file that is not in the cache; or the reason it cannot be had. */
    method LoadFile(r: Range, expired: nat -> bool) returns (file: Option<FileIndex>, failure: Option<Code>)
      ensures failure.Some? ==> file.None? && (failure == Some(Timeout) || (failure == Some(PathInvalid) && files.read(r.root, r.path).UnsafePath?))
      ensures file.Some? ==> IsFileOf(file.value, r.root, r.path)
      ensures failure.None? && file.None? ==> files.read(r.root, r.path).NotText?
    {
      var text := files.read(r.root, r.path);
      if text.UnsafePath? { return None, Some(PathInvalid); }
      if !text.Text? { return None, None; }
      var late := DeadlineExceeded();
      if late { return None, Some(Timeout); }
      file := IndexFile(text.content, expired);
      failure := if file.None? then Some(Timeout) else None;
    }

    /** The index of a file, from the cache if it is there, within the cache bound. A file that
        cannot be had costs the range, and says why. */
    method OpenFile(r: Range, size: nat, expired: nat -> bool) returns (file: Option<FileIndex>, failure: Option<Code>)
      requires Tallied() && Cached()
      modifies this`codes, this`dropped, this`drops, this`truncated, this`contentCache, this`cacheBytes, this`held
      ensures Tallied() && Cached()
      ensures held == old(held) || held == old(held) + [(r.root, r.path)]
      ensures failure.None? && file.None? ==> DoesNotFit(files, old(held), r, size) || files.read(r.root, r.path).NotText?
      ensures failure.Some? ==> file.None? && (failure == Some(Timeout) || (failure == Some(PathInvalid) && files.read(r.root, r.path).UnsafePath?))
      ensures file.Some? ==> IsFileOf(file.value, r.root, r.path)
      ensures drops == old(drops) + if failure.None? && file.None? then 1 else 0
      ensures failure.Some? || file.Some? ==> codes == old(codes) && truncated == old(truncated)
      ensures failure.None? && file.None? ==>
                (truncated && codes == old(codes) + {Truncated}) ||
                (truncated == old(truncated) && codes == old(codes) + {Unreadable} && files.read(r.root, r.path).NotText?)
    {
      var key := (r.root, r.path);
      if key in contentCache { return Some(contentCache[key]), None; }
      if Used(r.root) + size > MAX_CACHE_BYTES {
        DropTruncated();
        return None, None;
      }
      file, failure := LoadFile(r, expired);
      if failure.Some? { return; }
      if file.None? {
        Drop(Unreadable);
        return;
      }
      IndexBytesOf(files, file.value, r);
      if Used(r.root) + file.value.cacheBytes > MAX_CACHE_BYTES {
        DropTruncated();
        return None, None;
      }
      KeepFile(r, file.value);
    }

    /** Put a file just read into the cache. */
    method KeepFile(r: Range, file: FileIndex)
      requires Cached() && IsFileOf(file, r.root, r.path) && file.cacheBytes == IndexBytes(files, r.root, r.path)
      modifies this`contentCache, this`cacheBytes, this`held
      ensures Cached() && held == old(held) + [(r.root, r.path)]
    {
      OpenOne(files, held, r);
      contentCache := contentCache[(r.root, r.path) := file];
      cacheBytes := cacheBytes[r.root := Used(r.root) + file.cacheBytes];
      held := held + [(r.root, r.path)];
    }

    // ---------------------------------------------------------------- the lines of one range

    /** Record one line's handle. */
    method AddLine(l: Line)
      requires Counted() && l !in seenLines && Count(l.root) < MAX_PER_ROOT && KnownRoot(l.root) && files.isSafe(l.path) && l.number >= 1
      requires UsableLine(files, l)
      modifies this`handles, this`seenLines, this`counts
      ensures Counted() && seenLines == old(seenLines) + {l} && |handles| == |old(handles)| + 1
    {
      var handle := Handle("", l.root, l.path, l.number, l.number);
      LinesOfAdd(seenLines, l);
      AppendHandle(handles, handle);
      forall h | h in handles ensures LineOfHandle(h) != l { assert LineOfHandle(h) in HandleLines(handles); }
      seenLines := seenLines + {l};
      counts := counts[l.root := Count(l.root) + 1];
      handles := handles + [handle];
    }

    /** One line of a range: a handle, or a code saying why not. */
    method TakeLine(l: Line, file: FileIndex)
      requires Tallied() && Counted() && Count(l.root) < MAX_PER_ROOT && KnownRoot(l.root) && files.isSafe(l.path)
      requires IsFileOf(file, l.root, l.path) && 1 <= l.number <= file.lineCount
      modifies this`codes, this`handles, this`seenLines, this`counts
      ensures Tallied() && Counted()
      ensures seenLines == old(seenLines) + if UsableLine(files, l) then {l} else {}
      ensures |handles| == |old(handles)| + if UsableLine(files, l) && l !in old(seenLines) then 1 else 0
      ensures codes == old(codes) + if l in old(seenLines) then {Duplicate} else if !UsableLine(files, l) then {LineInvalid} else {}
    {
      if l in seenLines {
        AddCode(Duplicate);
        return;
      }
      var quote := ServeLine(file, l.number, files.trim);
      if !UsableQuote(quote, files.trim) {
        AddCode(LineInvalid);
        return;
      }
      AddLine(l);
    }

    /** Turn the lines of one range into handles until the root has its share. */
    method WalkLines(r: Range, file: FileIndex, ghost supports: Line -> bool) returns (failure: Option<Code>, ghost cut: bool)
      requires Tallied() && Counted() && UsableRange(files, r) && IsFileOf(file, r.root, r.path) && Count(r.root) < MAX_PER_ROOT
      requires forall l :: supports(l) ==> l == Line(r.root, r.path, l.number)
      requires forall n :: r.lineStart <= n <= r.lineEnd ==> supports(Line(r.root, r.path, n)) == UsableLine(files, Line(r.root, r.path, n))
      requires forall l :: supports(l) ==> r.lineStart <= l.number <= r.lineEnd
      modifies this`codes, this`truncated, this`handles, this`seenLines, this`counts
      ensures Tallied() && Counted() && (old(truncated) ==> truncated)
      ensures failure.None? || failure == Some(Timeout)
      ensures exists n :: Growing(supports, old(seenLines), seenLines, n)
      ensures failure.None? && !cut ==> Growing(supports, old(seenLines), seenLines, r.lineEnd + 1)
      ensures cut ==> truncated && Count(r.root) == MAX_PER_ROOT
      ensures |handles| > |old(handles)| || (|handles| == |old(handles)| && (failure.None? ==> codes != {}))
      ensures ExplainedBy(files, old(codes), codes, r)
      ensures failure.None? && !cut ==> Noted(files, r, r.lineEnd + 1, old(codes), codes) && truncated == old(truncated)
    {
      cut := false;
      ghost var seen := seenLines;
      for number := r.lineStart to r.lineEnd + 1
        invariant Tallied() && Counted() && truncated == old(truncated) && !cut
        invariant Growing(supports, seen, seenLines, number)
        invariant |handles| > |old(handles)| || (|handles| == |old(handles)| && (number > r.lineStart ==> codes != {}))
        invariant Noted(files, r, number, old(codes), codes)
      {
        var late := DeadlineExceeded();
        if late { return Some(Timeout), false; }
        if Count(r.root) == MAX_PER_ROOT {
          NoteCut(files, r, old(codes), codes);
          Truncate();
          return None, true;
        }
        var line := Line(r.root, r.path, number);
        NoteLine(files, r, number, old(codes), codes, line in seenLines);
        GrowsByLine(supports, seen, seenLines, line, UsableLine(files, line));
        TakeLine(line, file);
      }
      failure := None;
    }

    /** The lines of one range; a range that gives no handle counts as dropped. */
    method TakeLines(r: Range, file: FileIndex) returns (failure: Option<Code>)
      requires Tallied() && Counted() && UsableRange(files, r) && IsFileOf(file, r.root, r.path) && Count(r.root) < MAX_PER_ROOT
      modifies this`codes, this`dropped, this`drops, this`truncated, this`handles, this`seenLines, this`counts
      ensures Tallied() && Counted()
      ensures Grew(files, old(seenLines), seenLines, r)
      ensures failure.None? ==> truncated || Covered(files, seenLines, r)
      ensures failure.None? ==> Covered(files, seenLines, r) || Count(r.root) == MAX_PER_ROOT
      ensures failure.Some? ==> failure == Some(Timeout)
      ensures old(drops) <= drops <= old(drops) + 1 && (old(truncated) ==> truncated)
      ensures ExplainedBy(files, old(codes), codes, r)
      ensures failure.None? ==> (truncated || Reported(files, codes, r)) && |handles| + drops >= |old(handles)| + old(drops) + 1
    {
      var before := |handles|;
      ghost var supports := Support(files, r);
      ghost var cut;
      failure, cut := WalkLines(r, file, supports);
      if failure.Some? { return; }
      if |handles| == before { DropRange(); }
      if !cut { NotedIsReported(files, r, old(codes), codes); }
    }

    // ---------------------------------------------------------------- all ranges

    /** A range whose file is at hand: its lines, if the file has them all. */
    method TakeOpened(r: Range, file: FileIndex) returns (failure: Option<Code>)
      requires Tallied() && Counted() && Selectable(files, r) && Count(r.root) < MAX_PER_ROOT && IsFileOf(file, r.root, r.path)
      modifies this`codes, this`dropped, this`drops, this`truncated, this`handles, this`seenLines, this`counts
      ensures Tallied() && Counted()
      ensures Grew(files, old(seenLines), seenLines, r)
      ensures failure.None? ==> truncated || Covered(files, seenLines, r)
      ensures failure.None? ==> Covered(files, seenLines, r) || Count(r.root) == MAX_PER_ROOT
      ensures failure.Some? ==> failure == Some(Timeout)
      ensures old(drops) <= drops <= old(drops) + 1 && (old(truncated) ==> truncated)
      ensures ExplainedBy(files, old(codes), codes, r)
      ensures failure.None? ==> (truncated || Reported(files, codes, r)) && |handles| + drops >= |old(handles)| + old(drops) + 1
    {
      if r.lineEnd > file.lineCount {
        assert !UsableLine(files, Line(r.root, r.path, r.lineEnd));
        Drop(LineInvalid);
        return None;
      }
      failure := TakeLines(r, file);
    }

    /** One selected range. */
    method TakeRange(r: Range, size: nat, expired: nat -> bool) returns (failure: Option<Code>)
      requires Tallied() && Counted() && Cached() && Selectable(files, r) && Count(r.root) < MAX_PER_ROOT
      modifies this
      ensures Tallied() && Counted() && Cached()
      ensures Grew(files, old(seenLines), seenLines, r)
      ensures failure.None? ==> truncated || Covered(files, seenLines, r)
      ensures held == old(held) || held == old(held) + [(r.root, r.path)]
      ensures failure.None? ==> Covered(files, seenLines, r) || Count(r.root) == MAX_PER_ROOT || DoesNotFit(files, old(held), r, size)
      ensures failure.Some? ==> failure == Some(Timeout) || (failure == Some(PathInvalid) && files.read(r.root, r.path).UnsafePath?)
      ensures old(drops) <= drops <= old(drops) + 1 && (old(truncated) ==> truncated)
      ensures ExplainedBy(files, old(codes), codes, r)
      ensures failure.None? ==> (truncated || Reported(files, codes, r)) && |handles| + drops >= |old(handles)| + old(drops) + 1
    {
      var file: Option<FileIndex>;
      file, failure := OpenFile(r, size, expired);
      if failure.Some? || file.None? { return; }
      failure := TakeOpened(r, file.value);
    }

    /** Selected range k, unless its root has its share or the same range was taken before. */
    method TakeNext(ranges: seq<Range>, k: nat, seenRanges: set<Range>, expired: nat -> bool)
      returns (failure: Option<Code>, seenRanges': set<Range>)
      requires Tallied() && Counted() && Cached() && k < |ranges| && Selectable(files, ranges[k])
      requires Taken(files, ranges, k, seenRanges, seenLines, truncated)
      requires Greedy(files, ranges, k, seenLines) && OpenedBefore(ranges, k, held)
      modifies this
      ensures Tallied() && Counted() && Cached() && SupportedBy(files, seenLines, ranges)
      ensures OpenedBefore(ranges, k + 1, held) && (failure.None? ==> Greedy(files, ranges, k + 1, seenLines))
      ensures failure.Some? ==> failure == Some(Timeout) || (failure == Some(PathInvalid) && files.read(ranges[k].root, ranges[k].path).UnsafePath?)
      ensures failure.None? ==> Taken(files, ranges, k + 1, seenRanges', seenLines, truncated)
      ensures old(drops) <= drops <= old(drops) + 1 && (old(truncated) ==> truncated)
      ensures ExplainedBy(files, old(codes), codes, ranges[k])
      ensures failure.None? ==> |handles| + drops >= |old(handles)| + old(drops) + 1
      ensures failure.None? ==> truncated || ranges[k] in ranges[..k] || Reported(files, codes, ranges[k])
    {
      failure, seenRanges' := None, seenRanges;
      if Count(ranges[k].root) == MAX_PER_ROOT {
        TakeNone(files, ranges, k, seenRanges, seenLines, truncated);
        GreedyFull(files, ranges, k, seenLines);
        DropTruncated();
      } else if ranges[k] in seenRanges {
        TakeSeen(files, ranges, k, seenRanges, seenLines, truncated);
        GreedyAgain(files, ranges, k, seenLines);
        Drop(Duplicate);
      } else {
        assert ranges[k] in ranges;
        failure := TakeRange(ranges[k], files.stat(ranges[k].root, ranges[k].path).size, expired);
        GrewIsSupported(files, old(seenLines), seenLines, ranges, k);
        if failure.Some? { return; }
        GreedyOne(files, ranges, k, old(seenLines), seenLines, old(held));
        TakeOne(files, ranges, k, seenRanges, old(seenLines), seenLines, old(truncated), truncated);
        seenRanges' := seenRanges + {ranges[k]};
      }
    }

    /** The second loop of buildWorkspaceEvidenceHandles, over the selected ranges in order. */
    method TakeRanges(ranges: seq<Range>, expired: nat -> bool) returns (failure: Option<Code>)
      requires Tallied() && Counted() && Cached() && seenLines == {} && held == [] && forall r :: r in ranges ==> Selectable(files, r)
      modifies this
      ensures Tallied() && Counted()
      ensures failure.None? ==> Greedy(files, ranges, |ranges|, seenLines)
      ensures SupportedBy(files, seenLines, ranges)
      ensures failure.Some? ==> failure == Some(Timeout) || (failure == Some(PathInvalid) && exists r :: r in ranges && files.read(r.root, r.path).UnsafePath?)
      ensures failure.None? ==> truncated || AllCovered(files, seenLines, ranges)
      ensures old(drops) <= drops <= old(drops) + |ranges| && (old(truncated) ==> truncated)
      ensures Accounted(files, ranges, if failure.None? then |ranges| else 0, old(codes), codes, truncated)
      ensures failure.None? ==> |handles| + drops >= |old(handles)| + old(drops) + |ranges|
    {
      var seenRanges: set<Range> := {};
      failure := None;
      for k := 0 to |ranges|
        invariant failure.None? && Tallied() && Counted() && Cached() && (old(truncated) ==> truncated)
        invariant old(drops) <= drops <= old(drops) + k && |handles| + drops >= |old(handles)| + old(drops) + k
        invariant Taken(files, ranges, k, seenRanges, seenLines, truncated)
        invariant Greedy(files, ranges, k, seenLines) && OpenedBefore(ranges, k, held)
        invariant Accounted(files, ranges, k, old(codes), codes, truncated)
      {
        if k % 64 == 0 {
          var late := DeadlineExceeded();
          if late { return Some(Timeout); }
        }
        assert ranges[k] in ranges;
        ghost var before, wasTruncated := codes, truncated;
        failure, seenRanges := TakeNext(ranges, k, seenRanges, expired);
        AccountNext(files, ranges, k, old(codes), before, codes, wasTruncated, truncated);
        if failure.Some? { return; }
      }
      assert ranges[..|ranges|] == ranges;
    }

    /** What the first loop decides about one observed range. */
    method Inspect(observed: Range) returns (r: Range, failure: Option<Code>, flaw: Option<Code>)
      ensures r == Trimmed(files, observed)
      ensures flaw.Some? ==> failure.None? && !UsableRange(files, r) && Flawed(files, r, flaw.value)
      ensures flaw.Some? ==> forall c :: Flawed(files, r, c) ==> c == flaw.value
      ensures failure.None? && flaw.None? <==> Selectable(files, r)
      ensures failure == Some(RootInvalid) <==> !KnownRoot(r.root)
      ensures failure == Some(PathInvalid) <==> KnownRoot(r.root) && IsUnsafe(files, r)
      ensures failure.Some? ==> failure == Some(RootInvalid) || failure == Some(PathInvalid)
    {
      r, failure, flaw := Trimmed(files, observed), None, None;
      if !KnownRoot(r.root) { return r, Some(RootInvalid), None; }
      if !files.isSafe(r.path) { return r, Some(PathInvalid), None; }
      if r.lineStart < 1 || r.lineEnd < r.lineStart { return r, None, Some(LineInvalid); }
      match files.stat(r.root, r.path) {
        case Escaping => failure := Some(PathInvalid);
        case NoFile => flaw := Some(Unreadable);
        case Regular(_) =>
      }
    }

    /** Keep a range under its root, up to 512 of them. */
    method Choose(artifacts: seq<Range>, sources: seq<Range>, r: Range) returns (artifacts': seq<Range>, sources': seq<Range>)
      requires Tallied() && KnownRoot(r.root)
      modifies this`codes, this`dropped, this`drops, this`truncated
      ensures Tallied() && (old(truncated) ==> truncated)
      ensures codes == old(codes) || (truncated && codes == old(codes) + {RangeOverflow, Truncated})
      ensures truncated && !old(truncated) ==> |if r.root == ARTIFACTS then artifacts else sources| == 512
      ensures artifacts' == (if r.root == ARTIFACTS && |artifacts| != 512 then artifacts + [r] else artifacts)
      ensures sources' == (if r.root == SOURCE && |sources| != 512 then sources + [r] else sources)
      ensures || (truncated && drops == old(drops) + 1 && artifacts' == artifacts && sources' == sources)
              || (truncated == old(truncated) && drops == old(drops) && r.root == ARTIFACTS && artifacts' == artifacts + [r] && sources' == sources)
              || (truncated == old(truncated) && drops == old(drops) && r.root == SOURCE && artifacts' == artifacts && sources' == sources + [r])
    {
      artifacts', sources' := artifacts, sources;
      if |if r.root == ARTIFACTS then artifacts else sources| == MAX_RANGES {
        Drop(RangeOverflow);
        Truncate();
      } else if r.root == ARTIFACTS {
        artifacts' := artifacts + [r];
      } else {
        sources' := sources + [r];
      }
    }

    /** Observed range k: kept, dropped with a reason, or fatal. */
    method Consider(ranges: seq<Range>, k: nat, artifacts: seq<Range>, sources: seq<Range>)
      returns (failure: Option<Code>, artifacts': seq<Range>, sources': seq<Range>)
      requires Tallied() && k < |ranges| && Selection(files, ranges, k, artifacts, sources, truncated)
      modifies this`codes, this`dropped, this`drops, this`truncated
      ensures Tallied() && (old(truncated) ==> truncated)
      ensures failure.Some? ==> drops == old(drops) && artifacts' == artifacts && sources' == sources && Fatal(files, Trimmed(files, ranges[k]), failure.value)
      ensures failure.None? ==> forall c :: !Fatal(files, Trimmed(files, ranges[k]), c)
      ensures ExplainedBy(files, old(codes), codes, Trimmed(files, ranges[k]))
      ensures failure.None? ==> Selectable(files, Trimmed(files, ranges[k])) || Reported(files, codes, Trimmed(files, ranges[k]))
      ensures failure.None? ==> drops + |artifacts'| + |sources'| == old(drops) + |artifacts| + |sources| + 1
      ensures failure.None? ==> Selection(files, ranges, k + 1, artifacts', sources', truncated)
    {
      artifacts', sources' := artifacts, sources;
      var r, rejected, flaw := Inspect(ranges[k]);
      failure := rejected;
      if failure.Some? { return; }
      SelectOne(files, ranges, artifacts, sources, truncated, k, r);
      if flaw.Some? {
        Drop(flaw.value);
      } else {
        artifacts', sources' := Choose(artifacts, sources, r);
      }
    }

    /** The first loop of buildWorkspaceEvidenceHandles: the ranges worth opening, by root. */
    method SelectRanges(ranges: seq<Range>) returns (failure: Option<Code>, artifacts: seq<Range>, sources: seq<Range>)
      requires Tallied()
      modifies this`codes, this`dropped, this`drops, this`truncated
      ensures Tallied() && (old(truncated) ==> truncated)
      ensures drops + |artifacts| + |sources| <= old(drops) + |ranges|
      ensures failure.None? ==> drops + |artifacts| + |sources| == old(drops) + |ranges|
      ensures failure.Some? ==> failure == Some(Timeout) || exists k :: 0 <= k < |ranges| && Fatal(files, Trimmed(files, ranges[k]), failure.value)
      ensures failure.None? ==> Selection(files, ranges, |ranges|, artifacts, sources, truncated)
      ensures Screened(files, ranges, if failure.None? then |ranges| else 0, old(codes), codes)
    {
      artifacts, sources := [], [];
      for k := 0 to |ranges|
        invariant Tallied() && (old(truncated) ==> truncated) && drops + |artifacts| + |sources| == old(drops) + k
        invariant Screened(files, ranges, k, old(codes), codes)
        invariant Selection(files, ranges, k, artifacts, sources, truncated)
      {
        if k % 64 == 0 {
          var late := DeadlineExceeded();
          if late { return Some(Timeout), artifacts, sources; }
        }
        ghost var before := codes;
        failure, artifacts, sources := Consider(ranges, k, artifacts, sources);
        ScreenNext(files, ranges, k, old(codes), before, codes);
        if failure.Some? { return; }
      }
      failure := None;
    }
  }

  /** The lines before this number have left their codes, and no others. */
  ghost predicate Noted(files: Files, r: Range, number: int, before: set<Code>, codes: set<Code>) {
    && ExplainedBy(files, before, codes, r)
    && forall n :: r.lineStart <= n < number && !UsableLine(files, Line(r.root, r.path, n)) ==> LineInvalid in codes
  }

  lemma NoteLine(files: Files, r: Range, number: int, before: set<Code>, codes: set<Code>, seen: bool)
    requires UsableRange(files, r) && r.lineStart <= number <= r.lineEnd && Noted(files, r, number, before, codes)
    ensures var line := Line(r.root, r.path, number);
            && (seen && UsableLine(files, line) ==> Noted(files, r, number + 1, before, codes + {Duplicate}))
            && (!UsableLine(files, line) ==> Noted(files, r, number + 1, before, codes + {LineInvalid}))
            && (UsableLine(files, line) ==> Noted(files, r, number + 1, before, codes))
  {
  }

  lemma NoteCut(files: Files, r: Range, before: set<Code>, codes: set<Code>)
    requires ExplainedBy(files, before, codes, r)
    ensures ExplainedBy(files, before, codes + {Truncated}, r)
  {
  }

  lemma NotedIsReported(files: Files, r: Range, before: set<Code>, codes: set<Code>)
    requires UsableRange(files, r) && Noted(files, r, r.lineEnd + 1, before, codes)
    ensures Reported(files, codes, r)
  {
  }

  /** What the first loop lets through. */
  predicate Selectable(files: Files, r: Range) {
    KnownRoot(r.root) && files.isSafe(r.path) && files.stat(r.root, r.path).Regular? && 1 <= r.lineStart <= r.lineEnd
  }

  /** The first 512 ranges of a root that are worth opening. */
  function FirstSelected(files: Files, ranges: seq<Range>, root: string): seq<Range> {
    if ranges == [] then []
    else
      var rest, r := FirstSelected(files, ranges[..|ranges| - 1], root), Trimmed(files, ranges[|ranges| - 1]);
      if Selectable(files, r) && r.root == root && |rest| != 512 then rest + [r] else rest
  }

  lemma SelectedStep(files: Files, ranges: seq<Range>, k: nat, root: string)
    requires k < |ranges|
    ensures var rest, r := FirstSelected(files, ranges[..k], root), Trimmed(files, ranges[k]);
            FirstSelected(files, ranges[..k + 1], root) ==
            if Selectable(files, r) && r.root == root && |rest| != 512 then rest + [r] else rest
  {
    assert ranges[..k + 1][..k] == ranges[..k];
  }

  ghost predicate IsChosen(files: Files, ranges: seq<Range>, r: Range) {
    Selectable(files, r) && exists o :: o in ranges && Trimmed(files, o) == r
  }

  ghost predicate AllChosen(files: Files, ranges: seq<Range>, chosen: seq<Range>, root: string) {
    forall r :: r in chosen ==> r.root == root && IsChosen(files, ranges, r)
  }

  /** Each of the first k observed ranges is chosen, or not worth opening. */
  ghost predicate AllKept(files: Files, ranges: seq<Range>, k: nat, chosen: seq<Range>)
    requires k <= |ranges|
  {
    forall i :: 0 <= i < k ==> (Selectable(files, Trimmed(files, ranges[i])) ==> Trimmed(files, ranges[i]) in chosen)
  }

  ghost predicate ExplainedByObserved(files: Files, before: set<Code>, after: set<Code>, ranges: seq<Range>) {
    before <= after && forall c :: c in after && c !in before ==> IsSoft(c) || exists o :: o in ranges && Flawed(files, Trimmed(files, o), c)
  }

  /** Of the first k observed ranges none is fatal, and each is worth opening or has its code. */
  ghost predicate Screened(files: Files, ranges: seq<Range>, k: nat, before: set<Code>, codes: set<Code>)
    requires k <= |ranges|
  {
    && ExplainedByObserved(files, before, codes, ranges)
    && forall i :: 0 <= i < k ==>
         var r := Trimmed(files, ranges[i]); !Fatal(files, r, RootInvalid) && !Fatal(files, r, PathInvalid) && (Selectable(files, r) || Reported(files, codes, r))
  }

  lemma ScreenNext(files: Files, ranges: seq<Range>, k: nat, before: set<Code>, codes: set<Code>, after: set<Code>)
    requires k < |ranges| && Screened(files, ranges, k, before, codes) && ExplainedBy(files, codes, after, Trimmed(files, ranges[k]))
    ensures Screened(files, ranges, 0, before, after)
    ensures (forall c :: !Fatal(files, Trimmed(files, ranges[k]), c)) &&
            (Selectable(files, Trimmed(files, ranges[k])) || Reported(files, after, Trimmed(files, ranges[k]))) ==>
              Screened(files, ranges, k + 1, before, after)
  {
    assert ranges[k] in ranges;
    forall i | 0 <= i < k && Reported(files, codes, Trimmed(files, ranges[i])) ensures Reported(files, after, Trimmed(files, ranges[i])) {}
  }

  /** The choice made among the first k observed ranges: of each root the first 512 worth opening, and
      all of them unless truncated. */
  ghost predicate Selection(files: Files, ranges: seq<Range>, k: nat, artifacts: seq<Range>, sources: seq<Range>, truncated: bool)
    requires k <= |ranges|
  {
    Selects(files, ranges, k, artifacts, sources) && Choice(files, ranges, k, artifacts, sources, truncated)
  }

  predicate Selects(files: Files, ranges: seq<Range>, k: nat, artifacts: seq<Range>, sources: seq<Range>)
    requires k <= |ranges|
  {
    artifacts == FirstSelected(files, ranges[..k], ARTIFACTS) && sources == FirstSelected(files, ranges[..k], SOURCE)
  }

  ghost predicate Choice(files: Files, ranges: seq<Range>, k: nat, artifacts: seq<Range>, sources: seq<Range>, truncated: bool)
    requires k <= |ranges|
  {
    && AllChosen(files, ranges, artifacts, ARTIFACTS) && AllChosen(files, ranges, sources, SOURCE)
    && (truncated || AllKept(files, ranges, k, artifacts + sources))
  }

  lemma SelectOne(files: Files, ranges: seq<Range>, artifacts: seq<Range>, sources: seq<Range>, truncated: bool, k: nat, r: Range)
    requires k < |ranges| && r == Trimmed(files, ranges[k]) && Selection(files, ranges, k, artifacts, sources, truncated)
    ensures !Selectable(files, r) ==> Selection(files, ranges, k + 1, artifacts, sources, truncated)
    ensures Selectable(files, r) && |if r.root == ARTIFACTS then artifacts else sources| == 512 ==>
              Selection(files, ranges, k + 1, artifacts, sources, true)
    ensures Selectable(files, r) && r.root == ARTIFACTS && |artifacts| != 512 ==>
              Selection(files, ranges, k + 1, artifacts + [r], sources, truncated)
    ensures Selectable(files, r) && r.root == SOURCE && |sources| != 512 ==>
              Selection(files, ranges, k + 1, artifacts, sources + [r], truncated)
  {
    ChooseOne(files, ranges, artifacts, sources, truncated, k, r);
    SelectedStep(files, ranges, k, ARTIFACTS);
    SelectedStep(files, ranges, k, SOURCE);
  }

  lemma ChooseOne(files: Files, ranges: seq<Range>, artifacts: seq<Range>, sources: seq<Range>, truncated: bool, k: nat, r: Range)
    requires k < |ranges| && r == Trimmed(files, ranges[k]) && Choice(files, ranges, k, artifacts, sources, truncated)
    ensures !Selectable(files, r) ==> Choice(files, ranges, k + 1, artifacts, sources, truncated)
    ensures Choice(files, ranges, k + 1, artifacts, sources, true)
    ensures Selectable(files, r) && r.root == ARTIFACTS ==> Choice(files, ranges, k + 1, artifacts + [r], sources, truncated)
    ensures Selectable(files, r) && r.root == SOURCE ==> Choice(files, ranges, k + 1, artifacts, sources + [r], truncated)
  {
    assert ranges[k] in ranges && (Selectable(files, r) ==> IsChosen(files, ranges, r));
    forall o | o in artifacts + sources ensures o in artifacts + [r] + sources && o in artifacts + (sources + [r]) {
      assert o in artifacts || o in sources;
    }
    assert r in artifacts + [r] + sources && r in artifacts + (sources + [r]);
  }

  ghost predicate SupportedBy(files: Files, lines: set<Line>, ranges: seq<Range>) {
    forall l :: l in lines ==> exists r :: r in ranges && Supports(files, r, l)
  }

  ghost predicate AllCovered(files: Files, seen: set<Line>, ranges: seq<Range>) {
    forall r :: r in ranges ==> Covered(files, seen, r)
  }

  lemma GrewIsSupported(files: Files, before: set<Line>, after: set<Line>, ranges: seq<Range>, k: nat)
    requires k < |ranges| && Grew(files, before, after, ranges[k]) && SupportedBy(files, before, ranges)
    ensures SupportedBy(files, after, ranges)
  {
    forall l | l in after ensures exists r :: r in ranges && Supports(files, r, l) {
      if l !in before { assert ranges[k] in ranges; }
    }
  }

  /** The first k selected ranges have been dealt with. */
  ghost predicate Taken(files: Files, ranges: seq<Range>, k: nat, seenRanges: set<Range>, lines: set<Line>, truncated: bool)
    requires k <= |ranges|
  {
    && SupportedBy(files, lines, ranges)
    && (forall r :: r in seenRanges ==> r in ranges[..k])
    && (truncated || AllCovered(files, lines, ranges[..k]))
  }

  /** The first k ranges have left their codes, all of them unless truncated, and no others. */
  ghost predicate Accounted(files: Files, ranges: seq<Range>, k: nat, before: set<Code>, codes: set<Code>, truncated: bool)
    requires k <= |ranges|
  {
    && Explained(files, before, codes, ranges)
    && (truncated || forall i :: 0 <= i < k ==> Reported(files, codes, ranges[i]))
  }

  lemma AccountNext(files: Files, ranges: seq<Range>, k: nat, before: set<Code>, codes: set<Code>, after: set<Code>, wasTruncated: bool, truncated: bool)
    requires k < |ranges| && Accounted(files, ranges, k, before, codes, wasTruncated) && (wasTruncated ==> truncated)
    requires ExplainedBy(files, codes, after, ranges[k])
    ensures Accounted(files, ranges, 0, before, after, truncated)
    ensures truncated || ranges[k] in ranges[..k] || Reported(files, after, ranges[k]) ==> Accounted(files, ranges, k + 1, before, after, truncated)
  {
    assert ranges[k] in ranges;
    if !truncated {
      forall i | 0 <= i < k ensures Reported(files, after, ranges[i]) { assert Reported(files, codes, ranges[i]); }
      if ranges[k] in ranges[..k] {
        var i :| 0 <= i < k && ranges[i] == ranges[k];
        assert Reported(files, codes, ranges[i]);
      }
    }
  }

  // ------------------------------------------------------------------ which lines are kept

  ghost predicate OpenedBefore(ranges: seq<Range>, k: nat, held: seq<(string, string)>)
    requires k <= |ranges|
  {
    forall key :: key in held ==> exists j :: 0 <= j < k && (ranges[j].root, ranges[j].path) == key
  }

  /** The root of range i has its 64 lines, all of them supported by ranges up to that one. */
  ghost predicate IsFull(files: Files, ranges: seq<Range>, i: nat, lines: set<Line>)
    requires i < |ranges|
  {
    |LinesOf(lines, ranges[i].root)| == 64 && SupportedBy(files, LinesOf(lines, ranges[i].root), ranges[..i + 1])
  }

  /** The file of range i does not fit beside files of earlier ranges. */
  ghost predicate IsCrowded(files: Files, ranges: seq<Range>, i: nat)
    requires i < |ranges|
  {
    exists held :: OpenedBefore(ranges, i, held) && files.stat(ranges[i].root, ranges[i].path).Regular? &&
                     DoesNotFit(files, held, ranges[i], files.stat(ranges[i].root, ranges[i].path).size)
  }

  /** A line that range i supports is kept, unless its root is full or its file does not fit. */
  ghost predicate Settled(files: Files, ranges: seq<Range>, i: nat, lines: set<Line>)
    requires i < |ranges|
  {
    Covered(files, lines, ranges[i]) || IsFull(files, ranges, i, lines) || IsCrowded(files, ranges, i)
  }

  /** The first k ranges have been taken in order, each as far as there was room. */
  ghost predicate Greedy(files: Files, ranges: seq<Range>, k: nat, lines: set<Line>)
    requires k <= |ranges|
  {
    SupportedBy(files, lines, ranges[..k]) && forall i: nat :: i < k ==> Settled(files, ranges, i, lines)
  }

  lemma SupportedByMore(files: Files, lines: set<Line>, ranges: seq<Range>, j: nat, k: nat)
    requires j <= k <= |ranges| && SupportedBy(files, lines, ranges[..j])
    ensures SupportedBy(files, lines, ranges[..k])
  {
    forall l | l in lines ensures exists r :: r in ranges[..k] && Supports(files, r, l) {
      var r :| r in ranges[..j] && Supports(files, r, l);
      var i :| 0 <= i < j && ranges[..j][i] == r;
      assert ranges[..k][i] == r;
    }
  }

  lemma FullStays(before: set<Line>, after: set<Line>, root: string)
    requires before <= after && |LinesOf(before, root)| == 64 && |LinesOf(after, root)| <= 64
    ensures LinesOf(after, root) == LinesOf(before, root)
  {
    assert LinesOf(before, root) <= LinesOf(after, root);
    var more := LinesOf(after, root) - LinesOf(before, root);
    assert LinesOf(after, root) == LinesOf(before, root) + more;
  }

  lemma SettledStays(files: Files, ranges: seq<Range>, i: nat, before: set<Line>, after: set<Line>)
    requires i < |ranges| && Settled(files, ranges, i, before) && before <= after && |LinesOf(after, ranges[i].root)| <= 64
    ensures Settled(files, ranges, i, after)
  {
    if IsFull(files, ranges, i, before) { FullStays(before, after, ranges[i].root); }
  }

  lemma GreedyMore(files: Files, ranges: seq<Range>, k: nat, lines: set<Line>)
    requires k < |ranges| && Greedy(files, ranges, k, lines) && Settled(files, ranges, k, lines)
    ensures Greedy(files, ranges, k + 1, lines)
  {
    SupportedByMore(files, lines, ranges, k, k + 1);
  }

  lemma GreedyFull(files: Files, ranges: seq<Range>, k: nat, lines: set<Line>)
    requires k < |ranges| && Greedy(files, ranges, k, lines) && |LinesOf(lines, ranges[k].root)| == 64
    ensures Greedy(files, ranges, k + 1, lines)
  {
    SupportedByMore(files, lines, ranges, k, k + 1);
    assert IsFull(files, ranges, k, lines);
    GreedyMore(files, ranges, k, lines);
  }

  lemma SettledAgain(files: Files, ranges: seq<Range>, i: nat, k: nat, lines: set<Line>)
    requires i < k < |ranges| && ranges[i] == ranges[k] && Settled(files, ranges, i, lines)
    ensures Settled(files, ranges, k, lines)
  {
    if IsFull(files, ranges, i, lines) {
      SupportedByMore(files, LinesOf(lines, ranges[i].root), ranges, i + 1, k + 1);
    } else if IsCrowded(files, ranges, i) {
      CrowdedAgain(files, ranges, i, k);
    }
  }

  lemma CrowdedAgain(files: Files, ranges: seq<Range>, i: nat, k: nat)
    requires i < k < |ranges| && ranges[i] == ranges[k] && IsCrowded(files, ranges, i)
    ensures IsCrowded(files, ranges, k)
  {
    var held :| OpenedBefore(ranges, i, held) && DoesNotFit(files, held, ranges[i], files.stat(ranges[i].root, ranges[i].path).size);
    assert OpenedBefore(ranges, k, held);
  }

  lemma GreedyAgain(files: Files, ranges: seq<Range>, k: nat, lines: set<Line>)
    requires k < |ranges| && Greedy(files, ranges, k, lines) && ranges[k] in ranges[..k]
    ensures Greedy(files, ranges, k + 1, lines)
  {
    var i: nat :| i < k && ranges[..k][i] == ranges[k];
    SettledAgain(files, ranges, i, k, lines);
    GreedyMore(files, ranges, k, lines);
  }

  lemma GreedyOne(files: Files, ranges: seq<Range>, k: nat, before: set<Line>, after: set<Line>, held: seq<(string, string)>)
    requires k < |ranges| && Greedy(files, ranges, k, before) && Grew(files, before, after, ranges[k])
    requires OpenedBefore(ranges, k, held) && files.stat(ranges[k].root, ranges[k].path).Regular?
    requires forall root :: |LinesOf(after, root)| <= 64
    requires || Covered(files, after, ranges[k]) || |LinesOf(after, ranges[k].root)| == 64
             || DoesNotFit(files, held, ranges[k], files.stat(ranges[k].root, ranges[k].path).size)
    ensures Greedy(files, ranges, k + 1, after)
  {
    SupportedByMore(files, before, ranges, k, k + 1);
    assert ranges[..k + 1][k] == ranges[k];
    GrewIsSupported(files, before, after, ranges[..k + 1], k);
    forall i: nat | i < k ensures Settled(files, ranges, i, after) { SettledStays(files, ranges, i, before, after); }
  }

  lemma TakeNone(files: Files, ranges: seq<Range>, k: nat, seenRanges: set<Range>, lines: set<Line>, truncated: bool)
    requires k < |ranges| && Taken(files, ranges, k, seenRanges, lines, truncated)
    ensures Taken(files, ranges, k + 1, seenRanges, lines, true)
  {
    assert ranges[..k + 1] == ranges[..k] + [ranges[k]];
  }

  lemma TakeSeen(files: Files, ranges: seq<Range>, k: nat, seenRanges: set<Range>, lines: set<Line>, truncated: bool)
    requires k < |ranges| && Taken(files, ranges, k, seenRanges, lines, truncated) && ranges[k] in seenRanges
    ensures Taken(files, ranges, k + 1, seenRanges, lines, truncated)
  {
    assert ranges[..k + 1] == ranges[..k] + [ranges[k]];
  }

  lemma TakeOne(files: Files, ranges: seq<Range>, k: nat, seenRanges: set<Range>, before: set<Line>, lines: set<Line>,
                wasTruncated: bool, truncated: bool)
    requires k < |ranges| && Taken(files, ranges, k, seenRanges, before, wasTruncated) && (wasTruncated ==> truncated)
    requires SupportedBy(files, lines, ranges) && before <= lines && (truncated || Covered(files, lines, ranges[k]))
    ensures Taken(files, ranges, k + 1, seenRanges + {ranges[k]}, lines, truncated)
  {
    assert ranges[..k + 1] == ranges[..k] + [ranges[k]];
    if !truncated {
      forall r | r in ranges[..k] ensures Covered(files, lines, r) { assert Covered(files, before, r); }
    }
  }

  /** Only lines that the range supports were added. */
  ghost predicate Grew(files: Files, before: set<Line>, after: set<Line>, r: Range) {
    before <= after && forall l :: l in after && l !in before ==> Supports(files, r, l)
  }

  /** Some supported lines have been added, among them all with smaller numbers. */
  ghost predicate Growing(supports: Line -> bool, before: set<Line>, after: set<Line>, number: int) {
    && before <= after && (forall l :: l in after && l !in before ==> supports(l))
    && forall l :: supports(l) && l.number < number ==> l in after
  }

  lemma GrowsByLine(supports: Line -> bool, before: set<Line>, seen: set<Line>, l: Line, usable: bool)
    requires Growing(supports, before, seen, l.number) && supports(l) == usable
    requires forall other :: supports(other) && other.number == l.number ==> other == l
    ensures Growing(supports, before, seen + if usable then {l} else {}, l.number + 1)
  {
  }

  /** A range's supported lines, one per line number at most and none outside it. */
  lemma Support(files: Files, r: Range) returns (supports: Line -> bool)
    requires UsableRange(files, r)
    ensures forall l :: supports(l) ==> l == Line(r.root, r.path, l.number) && r.lineStart <= l.number <= r.lineEnd
    ensures forall n :: r.lineStart <= n <= r.lineEnd ==> supports(Line(r.root, r.path, n)) == UsableLine(files, Line(r.root, r.path, n))
    ensures forall before, after, n :: Growing(supports, before, after, n) ==>
              Grew(files, before, after, r) && (n == r.lineEnd + 1 ==> Covered(files, after, r))
  {
    supports := (l: Line) => Supports(files, r, l);
    forall before, after, n | Growing(supports, before, after, n)
      ensures Grew(files, before, after, r) && (n == r.lineEnd + 1 ==> Covered(files, after, r))
    {
      forall l | l in after && l !in before ensures Supports(files, r, l) { assert supports(l); }
      forall l | Supports(files, r, l) && n == r.lineEnd + 1 ensures l in after { assert supports(l); }
    }
  }

  lemma LinesOfAdd(seen: set<Line>, l: Line)
    requires l !in seen
    ensures forall root :: |LinesOf(seen + {l}, root)| == |LinesOf(seen, root)| + if root == l.root then 1 else 0
  {
    forall root ensures |LinesOf(seen + {l}, root)| == |LinesOf(seen, root)| + if root == l.root then 1 else 0 {
      assert LinesOf(seen + {l}, root) == if root == l.root then LinesOf(seen, root) + {l} else LinesOf(seen, root);
    }
  }

  lemma AppendHandle(handles: seq<Handle>, h: Handle)
    ensures HandleLines(handles + [h]) == HandleLines(handles) + {LineOfHandle(h)}
    ensures DistinctLines(handles) && LineOfHandle(h) !in HandleLines(handles) ==> DistinctLines(handles + [h])
  {
    var longer := handles + [h];
    forall other | other in longer ensures other == h || other in handles {}
    forall l | l in HandleLines(handles) + {LineOfHandle(h)} ensures l in HandleLines(longer) {
      if l == LineOfHandle(h) {
        assert longer[|handles|] == h && h in longer;
      } else {
        var other :| other in handles && LineOfHandle(other) == l;
        assert other in longer;
      }
    }
    if DistinctLines(handles) && LineOfHandle(h) !in HandleLines(handles) {
      forall i, j | 0 <= i < j < |longer| ensures LineOfHandle(longer[i]) != LineOfHandle(longer[j]) {
        if j == |handles| { assert handles[i] in handles && LineOfHandle(handles[i]) in HandleLines(handles); }
      }
    }
  }
}
