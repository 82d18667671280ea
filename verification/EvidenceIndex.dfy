/** The sparse line index of an evidence file and the line quotes it serves. A char is one byte of
    UTF-8 text. */
module EvidenceIndex {
  import opened Wrappers

  const INDEX_STRIDE: nat := 1024
  const MAX_CITATION_LINES: nat := 200
  const MAX_QUOTE_BYTES: nat := 2048

  // ------------------------------------------------------------------ the plain split

  /** The first newline at or after an offset, or the end. */
  function NextNewline(s: string, from: nat): (r: nat)
    requires from <= |s|
    ensures from <= r <= |s| && (r < |s| ==> s[r] == '\n')
    decreases |s| - from
  {
    if from == |s| || s[from] == '\n' then from else NextNewline(s, from + 1)
  }

  lemma {:induction false} NoEarlierNewline(s: string, from: nat, i: nat)
    requires from <= |s| && from <= i < NextNewline(s, from)
    ensures s[i] != '\n'
    decreases |s| - from
  {
    if from < i { NoEarlierNewline(s, from + 1, i); }
  }

  /** strings.Split(s, "\n"), from an offset on. */
  function Pieces(s: string, from: nat): (r: seq<string>)
    requires from <= |s|
    ensures r != []
    decreases |s| - from
  {
    var i := NextNewline(s, from);
    if i == |s| then [s[from..]] else [s[from..i]] + Pieces(s, i + 1)
  }

  function LinesFrom(s: string, from: nat): seq<string>
    requires from <= |s|
    decreases |s| - from
  {
    var i := NextNewline(s, from);
    if from == |s| then [] else if i == |s| then [s[from..]] else [s[from..i]] + LinesFrom(s, i + 1)
  }

  /** The lines of a file; a final newline ends the last line and starts no other. */
  function Lines(s: string): seq<string> {
    LinesFrom(s, 0)
  }

  lemma LastOfJoined<T>(head: seq<T>, tail: seq<T>)
    requires tail != []
    ensures var all := head + tail;
            all[|all| - 1] == tail[|tail| - 1] && all[..|all| - 1] == head + tail[..|tail| - 1]
  {
  }

  lemma {:induction false} LinesAreThePieces(s: string, from: nat)
    requires from <= |s|
    ensures var pieces := Pieces(s, from);
            LinesFrom(s, from) == if pieces[|pieces| - 1] == "" then pieces[..|pieces| - 1] else pieces
    decreases |s| - from
  {
    var i := NextNewline(s, from);
    if i < |s| {
      LinesAreThePieces(s, i + 1);
      LinesStep(s, from);
      LastOfJoined([s[from..i]], Pieces(s, i + 1));
    }
  }

  /** The lines are the plain split at newlines, less one trailing empty piece. */
  lemma LinesAreTheSplit(s: string)
    ensures var pieces := Pieces(s, 0);
            Lines(s) == if pieces[|pieces| - 1] == "" then pieces[..|pieces| - 1] else pieces
  {
    LinesAreThePieces(s, 0);
  }

  lemma LinesStep(s: string, p: nat)
    requires p <= |s| && NextNewline(s, p) < |s|
    ensures LinesFrom(s, p) == [s[p..NextNewline(s, p)]] + LinesFrom(s, NextNewline(s, p) + 1)
  {
  }

  lemma LinesOfOne(s: string, p: nat)
    requires p <= |s| && NextNewline(s, p) == |s|
    ensures LinesFrom(s, p) == if p == |s| then [] else [s[p..]]
  {
  }

  /** Where the line with k lines before it starts, if the text has k newlines. */
  function StartOf(s: string, k: nat): (r: Option<nat>)
    ensures r.Some? ==> r.value <= |s|
  {
    if k == 0 then Some(0)
    else
      match StartOf(s, k - 1)
      case None => None
      case Some(p) => if NextNewline(s, p) == |s| then None else Some(NextNewline(s, p) + 1)
  }

  lemma TailOf<T>(all: seq<T>, k: nat, head: T, tail: seq<T>)
    requires k <= |all| && all[k..] == [head] + tail
    ensures k < |all| && all[k] == head && all[k + 1..] == tail
  {
    assert |all[k..]| == |all| - k && all[k..][0] == head && all[k..][1..] == tail;
  }

  /** The lines from the k-th start on are the lines of the text from there. */
  lemma {:induction false} LinesFromStart(s: string, k: nat, all: seq<string>)
    requires StartOf(s, k).Some? && all == Lines(s)
    ensures k <= |all| && all[k..] == LinesFrom(s, StartOf(s, k).value)
  {
    if k == 0 {
      assert all[0..] == all;
    } else {
      LinesFromStart(s, k - 1, all);
      var p := StartOf(s, k - 1).value;
      LinesStep(s, p);
      TailOf(all, k - 1, s[p..NextNewline(s, p)], LinesFrom(s, NextNewline(s, p) + 1));
    }
  }

  lemma HeadLine(s: string, p: nat, lines: seq<string>)
    requires p < |s| && lines == LinesFrom(s, p)
    ensures |lines| > 0 && lines[0] == s[p..NextNewline(s, p)]
    ensures NextNewline(s, p) >= |s| - 1 ==> |lines| == 1
  {
    var i := NextNewline(s, p);
    if i < |s| {
      LinesStep(s, p);
      if i == |s| - 1 { LinesOfOne(s, |s|); }
    } else {
      LinesOfOne(s, p);
    }
  }

  /** The k-th line is the text between its start and the next newline. */
  lemma LineAtStart(s: string, k: nat)
    requires StartOf(s, k).Some? && StartOf(s, k).value < |s|
    ensures k < |Lines(s)| && Lines(s)[k] == s[StartOf(s, k).value..NextNewline(s, StartOf(s, k).value)]
  {
    var p, all := StartOf(s, k).value, Lines(s);
    LinesFromStart(s, k, all);
    HeadLine(s, p, all[k..]);
    assert all[k] == all[k..][0];
  }

  /** A start after which at most the final byte is a newline is the last line's. */
  lemma LastLine(s: string, k: nat)
    requires StartOf(s, k).Some? && StartOf(s, k).value < |s| && NextNewline(s, StartOf(s, k).value) >= |s| - 1
    ensures |Lines(s)| == k + 1
  {
    var p, all := StartOf(s, k).value, Lines(s);
    LinesFromStart(s, k, all);
    HeadLine(s, p, all[k..]);
  }

  /** Having read i bytes, the current line is the last one started. */
  ghost predicate Scanning(s: string, lines: nat, i: nat) {
    && lines > 0 && i <= |s| && StartOf(s, lines - 1).Some?
    && StartOf(s, lines - 1).value < |s| && StartOf(s, lines - 1).value <= i
    && (NextNewline(s, StartOf(s, lines - 1).value) >= i || (i == |s| && NextNewline(s, StartOf(s, lines - 1).value) == i - 1))
  }

  /** Having seen no newline before byte i, it is the next one or not. */
  lemma NewlineAt(s: string, p: nat, i: nat)
    requires p <= i < |s| && NextNewline(s, p) >= i
    ensures NextNewline(s, p) == i <==> s[i] == '\n'
  {
    if NextNewline(s, p) > i { NoEarlierNewline(s, p, i); }
  }

  lemma ScanByte(s: string, lines: nat, i: nat)
    requires Scanning(s, lines, i) && i < |s|
    ensures s[i] == '\n' && i + 1 < |s| ==> StartOf(s, lines) == Some(i + 1) && Scanning(s, lines + 1, i + 1)
    ensures s[i] != '\n' || i + 1 == |s| ==> Scanning(s, lines, i + 1)
  {
    var p := StartOf(s, lines - 1).value;
    NewlineAt(s, p, i);
    if s[i] == '\n' && i + 1 < |s| { assert StartOf(s, lines) == Some(i + 1); }
  }

  // ------------------------------------------------------------------ the sparse index

  datatype FileIndex = FileIndex(content: string, lineOffsets: seq<nat>, lineCount: nat, cacheBytes: nat)

  predicate OffsetsUpTo(s: string, offsets: seq<nat>, lines: nat) {
    && lines > 0 && |offsets| == (lines - 1) / INDEX_STRIDE + 1
    && forall b :: 0 <= b < |offsets| ==> StartOf(s, b * INDEX_STRIDE) == Some(offsets[b])
  }

  /** What an index says of its file: the exact number of lines, and every 1024th line's start. */
  ghost predicate IsIndexOf(file: FileIndex, s: string) {
    && file.content == s && file.lineCount == |Lines(s)|
    && (s != "" ==> OffsetsUpTo(s, file.lineOffsets, file.lineCount) && file.cacheBytes == |s| + |file.lineOffsets| * 8)
    && (s == "" ==> file.lineOffsets == [] && file.cacheBytes == 0)
    && forall k :: 0 <= k < file.lineCount ==> StartOf(s, k).Some? && StartOf(s, k).value < |s|
  }

  lemma {:induction false} EarlierStarts(s: string, k: nat, n: nat)
    requires k <= n && StartOf(s, n).Some? && StartOf(s, n).value < |s|
    ensures StartOf(s, k).Some? && StartOf(s, k).value < |s|
    decreases n
  {
    if k < n { EarlierStarts(s, k, n - 1); }
  }

  lemma NextOffset(s: string, offsets: seq<nat>, lines: nat, next: nat)
    requires OffsetsUpTo(s, offsets, lines) && StartOf(s, lines) == Some(next)
    ensures OffsetsUpTo(s, if lines % INDEX_STRIDE == 0 then offsets + [next] else offsets, lines + 1)
  {
    if lines % INDEX_STRIDE == 0 {
      assert lines == (lines / INDEX_STRIDE) * INDEX_STRIDE && |offsets| == lines / INDEX_STRIDE;
    }
  }

  lemma ScannedIndex(s: string, offsets: seq<nat>, lines: nat)
    requires Scanning(s, lines, |s|) && OffsetsUpTo(s, offsets, lines)
    ensures IsIndexOf(FileIndex(s, offsets, lines, |s| + |offsets| * 8), s)
  {
    LastLine(s, lines - 1);
    forall k | 0 <= k < lines ensures StartOf(s, k).Some? && StartOf(s, k).value < |s| {
      EarlierStarts(s, k, lines - 1);
    }
  }

  /** The deadline is found expired at one of the looks at it before byte n. */
  predicate Expires(expired: nat -> bool, n: nat) {
    exists at: nat :: at < n && at % 65536 == 0 && expired(at)
  }

  lemma ExpiresStep(expired: nat -> bool, i: nat, n: nat)
    requires i < n
    ensures Expires(expired, i + 1) <==> Expires(expired, i) || (i % 0x10000 == 0 && expired(i))
    ensures i % 0x10000 == 0 && expired(i) ==> Expires(expired, n)
  {
  }

  /** indexWorkspaceEvidenceFile; the deadline is checked once in 64 KiB. */
  method IndexFile(content: string, expired: nat -> bool) returns (index: Option<FileIndex>)
    ensures index.Some? ==> IsIndexOf(index.value, content)
    ensures index.None? <==> Expires(expired, |content|)
  {
    if content == "" {
      LinesOfOne(content, 0);
      return Some(FileIndex(content, [], 0, 0));
    }
    var lineOffsets: seq<nat>, lineCount: nat := [0], 1;
    for i := 0 to |content|
      invariant Scanning(content, lineCount, i) && OffsetsUpTo(content, lineOffsets, lineCount)
      invariant !Expires(expired, i)
    {
      ExpiresStep(expired, i, |content|);
      if i % 0x10000 == 0 && expired(i) { return None; }
      ScanByte(content, lineCount, i);
      if content[i] != '\n' { continue; }
      var next := i + 1;
      if next == |content| { continue; }
      NextOffset(content, lineOffsets, lineCount, next);
      lineCount := lineCount + 1;
      if (lineCount - 1) % INDEX_STRIDE == 0 { lineOffsets := lineOffsets + [next]; }
    }
    ScannedIndex(content, lineOffsets, lineCount);
    index := Some(FileIndex(content, lineOffsets, lineCount, |content| + |lineOffsets| * 8));
  }

  lemma BlockStart(file: FileIndex, line: nat)
    requires IsIndexOf(file, file.content) && 1 <= line <= file.lineCount
    ensures var block := (line - 1) / INDEX_STRIDE;
            block < |file.lineOffsets| && StartOf(file.content, block * INDEX_STRIDE) == Some(file.lineOffsets[block])
    ensures StartOf(file.content, line - 1).Some? && StartOf(file.content, line - 1).value < |file.content|
  {
    LinesOfOne("", 0);
  }

  lemma AdvanceStart(s: string, current: nat, start: nat, line: nat)
    requires 1 <= current < line && StartOf(s, current - 1) == Some(start)
    requires StartOf(s, line - 1).Some? && StartOf(s, line - 1).value < |s|
    ensures start <= |s| && NextNewline(s, start) < |s| && StartOf(s, current) == Some(NextNewline(s, start) + 1)
  {
    EarlierStarts(s, current, line - 1);
  }

  /** workspaceEvidenceLine: jump to the block's start, then count newlines. */
  method LineOf(file: FileIndex, line: nat) returns (quote: string)
    requires IsIndexOf(file, file.content) && 1 <= line <= file.lineCount
    ensures quote == Lines(file.content)[line - 1]
  {
    BlockStart(file, line);
    var block := (line - 1) / INDEX_STRIDE;
    var start := file.lineOffsets[block];
    var current := block * INDEX_STRIDE + 1;
    while current < line
      invariant 1 <= current <= line && StartOf(file.content, current - 1) == Some(start)
    {
      AdvanceStart(file.content, current, start, line);
      var next := NextNewline(file.content, start);
      if next == |file.content| { assert false; }
      start := next + 1;
      current := current + 1;
    }
    LineAtStart(file.content, line - 1);
    quote := file.content[start..NextNewline(file.content, start)];
  }

  // ------------------------------------------------------------------ quotes

  function JoinLines(lines: seq<string>): string {
    if lines == [] then "" else if |lines| == 1 then lines[0] else lines[0] + "\n" + JoinLines(lines[1..])
  }

  predicate UsableQuote(quote: string, trim: string -> string) {
    trim(quote) != "" && |quote| <= MAX_QUOTE_BYTES
  }

  /** canonicalWorkspaceQuote. */
  function CanonicalQuote(content: string, lineStart: int, lineEnd: int, trim: string -> string): Option<string> {
    var lines := Lines(content);
    if lineStart < 1 || lineEnd < lineStart || lineEnd - lineStart + 1 > MAX_CITATION_LINES || lineEnd > |lines| then None
    else
      var quote := JoinLines(lines[lineStart - 1..lineEnd]);
      if UsableQuote(quote, trim) then Some(quote) else None
  }

  /** The index and the citation check read the same line: a usable line served by the index is
      accepted as a citation, with the same text. */
  method ServeLine(file: FileIndex, line: nat, trim: string -> string) returns (quote: string)
    requires IsIndexOf(file, file.content) && 1 <= line <= file.lineCount
    ensures CanonicalQuote(file.content, line, line, trim) == if UsableQuote(quote, trim) then Some(quote) else None
  {
    quote := LineOf(file, line);
    assert Lines(file.content)[line - 1..line] == [quote];
  }
}
