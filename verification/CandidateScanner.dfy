/** Finding the JSON objects in a model's answer: one pass over the bytes with a bounded stack of open
    braces, string quoting as in section 7 of RFC 8259. */
module CandidateScanner {
  import opened Wrappers
  import opened Order

  const MAX_CANDIDATES: nat := 256

  // ------------------------------------------------------------------ reading braces

  datatype Lexer = Lexer(quoted: bool, escaped: bool)

  function Read(l: Lexer, ch: char): Lexer {
    if !l.quoted then Lexer(ch == '"', false)
    else if l.escaped then Lexer(true, false)
    else if ch == '\\' then Lexer(true, true)
    else Lexer(ch != '"', false)
  }

  /** The quoting state before byte n. */
  function LexAt(raw: string, n: nat): Lexer
    requires n <= |raw|
  {
    if n == 0 then Lexer(false, false) else Read(LexAt(raw, n - 1), raw[n - 1])
  }

  predicate IsOpen(raw: string, i: nat) {
    i < |raw| && raw[i] == '{' && !LexAt(raw, i).quoted
  }

  predicate IsClose(raw: string, i: nat) {
    i < |raw| && raw[i] == '}' && !LexAt(raw, i).quoted
  }

  /** How many braces are open before byte n; a closing brace with none open counts for nothing. */
  function Depth(raw: string, n: nat): nat
    requires n <= |raw|
  {
    if n == 0 then 0
    else
      var d := Depth(raw, n - 1);
      if IsOpen(raw, n - 1) then d + 1 else if IsClose(raw, n - 1) && d > 0 then d - 1 else d
  }

  /** Byte j closes the brace opened at byte i. */
  ghost predicate Matches(raw: string, i: nat, j: nat) {
    && i < j && IsOpen(raw, i) && IsClose(raw, j)
    && Depth(raw, j + 1) == Depth(raw, i)
    && forall k :: i < k <= j ==> Depth(raw, k) > Depth(raw, i)
  }

  /** Nothing closes the brace opened at byte i. */
  ghost predicate Unmatched(raw: string, i: nat) {
    IsOpen(raw, i) && forall k :: i < k <= |raw| ==> Depth(raw, k) > Depth(raw, i)
  }

  lemma DeeperInside(raw: string, i: nat, j: nat, k: nat)
    requires Matches(raw, i, j)
    ensures i < k <= j ==> Depth(raw, k) > Depth(raw, i)
  {
  }

  lemma MatchedOrUnmatched(raw: string, i: nat, j: nat)
    ensures !(Matches(raw, i, j) && Unmatched(raw, i))
  {
    if Unmatched(raw, i) && i < j < |raw| { assert Depth(raw, j + 1) > Depth(raw, i); }
  }

  /** Two objects share bytes only if one contains the other. */
  lemma MatchesAreLaminar(raw: string, i: nat, j: nat, i': nat, j': nat)
    requires Matches(raw, i, j) && Matches(raw, i', j') && i < i'
    ensures j < i' || j' < j
  {
    DeeperInside(raw, i, j, i');
    DeeperInside(raw, i', j', j + 1);
  }

  // ------------------------------------------------------------------ the open braces

  /** The positions of the braces open before byte n, outermost first. */
  function Opens(raw: string, n: nat): (r: seq<nat>)
    requires n <= |raw|
    ensures |r| == Depth(raw, n)
  {
    if n == 0 then []
    else
      var s := Opens(raw, n - 1);
      if IsOpen(raw, n - 1) then s + [n - 1] else if IsClose(raw, n - 1) && s != [] then s[..|s| - 1] else s
  }

  lemma {:induction false} OpenMeaning(raw: string, n: nat, p: nat)
    requires n <= |raw| && p < |Opens(raw, n)|
    ensures var i := Opens(raw, n)[p];
            i < n && IsOpen(raw, i) && Depth(raw, i) == p && forall k :: i < k <= n ==> Depth(raw, k) > p
    decreases n
  {
    if p < |Opens(raw, n - 1)| && (!IsOpen(raw, n - 1) || p < |Opens(raw, n)| - 1) { OpenMeaning(raw, n - 1, p); }
  }

  /** A brace stays in its place while the depth is above its own. */
  lemma {:induction false} StaysOpen(raw: string, i: nat, n: nat)
    requires i < n <= |raw| && IsOpen(raw, i) && forall k :: i < k <= n ==> Depth(raw, k) > Depth(raw, i)
    ensures Opens(raw, n)[Depth(raw, i)] == i
    decreases n
  {
    if n > i + 1 { StaysOpen(raw, i, n - 1); }
  }

  lemma CloseStep(raw: string, j: nat)
    requires IsClose(raw, j) && Depth(raw, j) > 0
    ensures Depth(raw, j + 1) == Depth(raw, j) - 1
  {
  }

  /** A closing brace matches the innermost open one. */
  lemma CloseMatches(raw: string, j: nat)
    requires IsClose(raw, j) && Opens(raw, j) != []
    ensures Matches(raw, Opens(raw, j)[|Opens(raw, j)| - 1], j)
  {
    var p := |Opens(raw, j)| - 1;
    OpenMeaning(raw, j, p);
    CloseStep(raw, j);
  }

  lemma MatchIsInnermost(raw: string, i: nat, j: nat)
    requires Matches(raw, i, j)
    ensures |Opens(raw, j)| == Depth(raw, i) + 1 && Opens(raw, j)[Depth(raw, i)] == i
  {
    StaysOpen(raw, i, j);
  }

  lemma OpensAreUnmatched(raw: string, i: nat)
    ensures Unmatched(raw, i) <==> i in Opens(raw, |raw|)
  {
    var opens := Opens(raw, |raw|);
    if i in opens {
      var p :| 0 <= p < |opens| && opens[p] == i;
      OpenMeaning(raw, |raw|, p);
    }
    if Unmatched(raw, i) { StaysOpen(raw, i, |raw|); }
  }

  lemma DepthStep(raw: string, n: nat)
    requires 0 < n <= |raw|
    ensures Depth(raw, n) < Depth(raw, n - 1) ==> IsClose(raw, n - 1) && Depth(raw, n) == Depth(raw, n - 1) - 1
  {
  }

  /** An opened brace is closed or not. */
  lemma {:induction false} OpenIsMatchedOrNot(raw: string, i: nat, n: nat) returns (j: nat)
    requires IsOpen(raw, i) && i < n <= |raw|
    ensures if forall k :: i < k <= n ==> Depth(raw, k) > Depth(raw, i) then true else j < n && Matches(raw, i, j)
    decreases n
  {
    j := 0;
    if n > i + 1 {
      j := OpenIsMatchedOrNot(raw, i, n - 1);
      if forall k :: i < k <= n - 1 ==> Depth(raw, k) > Depth(raw, i) {
        j := n - 1;
        assert Depth(raw, n - 1) > Depth(raw, i);
        DepthStep(raw, n);
        assert Depth(raw, n) <= Depth(raw, i) ==> IsClose(raw, j) && Depth(raw, j + 1) == Depth(raw, i);
      }
    }
  }

  // ------------------------------------------------------------------ the closed objects

  datatype Span = Span(start: nat, end: nat)

  /** The objects closed before byte n in closing order, leaving out those opened under 256 others. */
  function Closed(raw: string, n: nat): seq<Span>
    requires n <= |raw|
  {
    if n == 0 then []
    else
      var s, opens := Closed(raw, n - 1), Opens(raw, n - 1);
      if IsClose(raw, n - 1) && 0 < |opens| <= MAX_CANDIDATES then s + [Span(opens[|opens| - 1], n - 1)] else s
  }

  function LastOnes<T>(s: seq<T>, limit: nat): seq<T> {
    if |s| > limit then s[|s| - limit..] else s
  }

  function FirstOnes<T>(s: seq<T>, limit: nat): seq<T> {
    if |s| > limit then s[..limit] else s
  }

  predicate SpanAtMost(a: Span, b: Span) {
    if a.start != b.start then a.start < b.start else a.end >= b.end
  }

  /** Some brace is opened under 256 others, within the first n bytes. */
  predicate TooDeep(raw: string, n: nat)
    requires n <= |raw|
  {
    exists i :: 0 <= i < n && IsOpen(raw, i) && Depth(raw, i) >= MAX_CANDIDATES
  }

  datatype ScanResult = ScanResult(candidates: seq<Span>, incomplete: seq<nat>, truncated: bool)

  ghost predicate IsScan(raw: string, r: ScanResult) {
    && r.candidates == Sort(SpanAtMost, LastOnes(Closed(raw, |raw|), MAX_CANDIDATES))
    && r.incomplete == FirstOnes(Opens(raw, |raw|), MAX_CANDIDATES)
    && r.truncated == (TooDeep(raw, |raw|) || |Closed(raw, |raw|)| > MAX_CANDIDATES)
  }

  // ------------------------------------------------------------------ the scanner

  ghost predicate Stacked(raw: string, n: nat, stack: seq<nat>, overflowDepth: nat)
    requires n <= |raw|
  {
    && stack == FirstOnes(Opens(raw, n), MAX_CANDIDATES)
    && Depth(raw, n) == |stack| + overflowDepth && (overflowDepth > 0 ==> |stack| == MAX_CANDIDATES)
  }

  ghost predicate Collected(raw: string, n: nat, candidates: seq<Span>, truncated: bool)
    requires n <= |raw|
  {
    && candidates == LastOnes(Closed(raw, n), MAX_CANDIDATES)
    && truncated == (TooDeep(raw, n) || |Closed(raw, n)| > MAX_CANDIDATES)
  }

  /** A byte that is no brace outside strings changes neither stack nor candidates. */
  lemma PlainByte(raw: string, n: nat)
    requires n < |raw| && !IsOpen(raw, n) && !IsClose(raw, n)
    ensures Opens(raw, n + 1) == Opens(raw, n) && Closed(raw, n + 1) == Closed(raw, n) && (TooDeep(raw, n + 1) <==> TooDeep(raw, n))
    ensures Depth(raw, n + 1) == Depth(raw, n)
  {
  }

  lemma OpenByte(raw: string, n: nat, stack: seq<nat>, overflowDepth: nat, candidates: seq<Span>, truncated: bool)
    requires IsOpen(raw, n) && Stacked(raw, n, stack, overflowDepth) && Collected(raw, n, candidates, truncated)
    ensures |stack| < MAX_CANDIDATES ==> Stacked(raw, n + 1, stack + [n], overflowDepth) && Collected(raw, n + 1, candidates, truncated)
    ensures |stack| == MAX_CANDIDATES ==> Stacked(raw, n + 1, stack, overflowDepth + 1) && Collected(raw, n + 1, candidates, true)
    ensures |stack| <= MAX_CANDIDATES
  {
    assert TooDeep(raw, n + 1) <==> TooDeep(raw, n) || Depth(raw, n) >= MAX_CANDIDATES;
  }

  lemma CloseByte(raw: string, n: nat, stack: seq<nat>, overflowDepth: nat, candidates: seq<Span>, truncated: bool)
    requires IsClose(raw, n) && stack != [] && Stacked(raw, n, stack, overflowDepth) && Collected(raw, n, candidates, truncated)
    ensures overflowDepth > 0 ==> Stacked(raw, n + 1, stack, overflowDepth - 1) && Collected(raw, n + 1, candidates, truncated)
    ensures overflowDepth == 0 ==>
              var more := candidates + [Span(stack[|stack| - 1], n)];
              && Stacked(raw, n + 1, stack[..|stack| - 1], 0)
              && Collected(raw, n + 1, LastOnes(more, MAX_CANDIDATES), truncated || |more| > MAX_CANDIDATES)
  {
    assert TooDeep(raw, n + 1) <==> TooDeep(raw, n);
    if overflowDepth == 0 {
      var span := Span(stack[|stack| - 1], n);
      assert Closed(raw, n + 1) == Closed(raw, n) + [span];
      LastOnesExtends(Closed(raw, n), span, MAX_CANDIDATES);
    }
  }

  lemma LastOnesExtends<T>(s: seq<T>, x: T, limit: nat)
    ensures LastOnes(s + [x], limit) == LastOnes(LastOnes(s, limit) + [x], limit)
    ensures |LastOnes(s, limit) + [x]| > limit <==> |s + [x]| > limit
  {
  }

  /** One byte of quoting; taken says the byte was quoted text or a quote. */
  method ReadQuote(ch: char, inString: bool, escaped: bool) returns (inString': bool, escaped': bool, taken: bool)
    requires escaped ==> inString
    ensures Lexer(inString', escaped') == Read(Lexer(inString, escaped), ch) && taken == (inString || ch == '"')
  {
    inString', escaped', taken := inString, escaped, inString || ch == '"';
    if inString {
      if escaped { escaped' := false; }
      else if ch == '\\' { escaped' := true; }
      else if ch == '"' { inString' := false; }
    } else if ch == '"' {
      inString' := true;
    }
  }

  /** Quoting is tracked in one pair of flags outside every object and in another inside. */
  predicate Flags(raw: string, n: nat, inside: bool, inString: bool, escaped: bool, outsideString: bool, outsideEscaped: bool)
    requires n <= |raw|
  {
    && (escaped ==> inString) && (outsideEscaped ==> outsideString)
    && if inside then !outsideString && LexAt(raw, n) == Lexer(inString, escaped)
       else !inString && LexAt(raw, n) == Lexer(outsideString, outsideEscaped)
  }

  /** scanAnalysisChatJSONCandidates. */
  method Scan(raw: string) returns (result: ScanResult)
    ensures IsScan(raw, result)
  {
    var stack: seq<nat>, candidates: seq<Span> := [], [];
    var inString, escaped, outsideString, outsideEscaped := false, false, false, false;
    var overflowDepth: nat, truncated := 0, false;
    for index := 0 to |raw|
      invariant Flags(raw, index, stack != [], inString, escaped, outsideString, outsideEscaped)
      invariant Stacked(raw, index, stack, overflowDepth) && Collected(raw, index, candidates, truncated)
    {
      var ch, taken := raw[index], false;
      ScanByte(raw, index, stack, overflowDepth, candidates, truncated);
      if stack == [] {
        outsideString, outsideEscaped, taken := ReadQuote(ch, outsideString, outsideEscaped);
        if !taken && ch == '{' { stack := stack + [index]; }
        continue;
      }
      inString, escaped, taken := ReadQuote(ch, inString, escaped);
      if taken { continue; }
      if ch == '{' {
        if |stack| < MAX_CANDIDATES { stack := stack + [index]; } else { overflowDepth, truncated := overflowDepth + 1, true; }
      } else if ch == '}' {
        if overflowDepth > 0 {
          overflowDepth := overflowDepth - 1;
          continue;
        }
        stack, candidates, truncated := CloseObject(index, stack, candidates, truncated);
      }
    }
    result := ScanResult(Sort(SpanAtMost, candidates), stack, truncated);
  }

  /** Take the innermost object off the stack; past 256 candidates the oldest is forgotten. */
  method CloseObject(index: nat, stack: seq<nat>, candidates: seq<Span>, truncated: bool)
    returns (stack': seq<nat>, candidates': seq<Span>, truncated': bool)
    requires stack != [] && |candidates| <= MAX_CANDIDATES
    ensures stack' == stack[..|stack| - 1]
    ensures var more := candidates + [Span(stack[|stack| - 1], index)];
            candidates' == LastOnes(more, MAX_CANDIDATES) && truncated' == (truncated || |more| > MAX_CANDIDATES)
  {
    stack' := stack[..|stack| - 1];
    candidates', truncated' := candidates + [Span(stack[|stack| - 1], index)], truncated;
    if |candidates'| > MAX_CANDIDATES {
      candidates', truncated' := candidates'[|candidates'| - MAX_CANDIDATES..], true;
    }
  }

  /** What byte n does to the stack and the candidates. */
  lemma ScanByte(raw: string, n: nat, stack: seq<nat>, overflowDepth: nat, candidates: seq<Span>, truncated: bool)
    requires n < |raw| && Stacked(raw, n, stack, overflowDepth) && Collected(raw, n, candidates, truncated)
    ensures |candidates| <= MAX_CANDIDATES && |stack| <= MAX_CANDIDATES
    ensures (!IsOpen(raw, n) && !IsClose(raw, n)) || (IsClose(raw, n) && stack == []) ==>
              Stacked(raw, n + 1, stack, overflowDepth) && Collected(raw, n + 1, candidates, truncated)
    ensures IsOpen(raw, n) && |stack| < MAX_CANDIDATES ==>
              Stacked(raw, n + 1, stack + [n], overflowDepth) && Collected(raw, n + 1, candidates, truncated)
    ensures IsOpen(raw, n) && |stack| == MAX_CANDIDATES ==>
              Stacked(raw, n + 1, stack, overflowDepth + 1) && Collected(raw, n + 1, candidates, true)
    ensures IsClose(raw, n) && overflowDepth > 0 ==>
              Stacked(raw, n + 1, stack, overflowDepth - 1) && Collected(raw, n + 1, candidates, truncated)
    ensures IsClose(raw, n) && overflowDepth == 0 && stack != [] ==>
              var more := candidates + [Span(stack[|stack| - 1], n)];
              && Stacked(raw, n + 1, stack[..|stack| - 1], 0)
              && Collected(raw, n + 1, LastOnes(more, MAX_CANDIDATES), truncated || |more| > MAX_CANDIDATES)
  {
    if IsOpen(raw, n) {
      OpenByte(raw, n, stack, overflowDepth, candidates, truncated);
    } else if IsClose(raw, n) && stack != [] {
      CloseByte(raw, n, stack, overflowDepth, candidates, truncated);
    } else if IsClose(raw, n) {
      IdleClose(raw, n);
    } else {
      PlainByte(raw, n);
    }
  }

  /** A closing brace with nothing open is skipped. */
  lemma IdleClose(raw: string, n: nat)
    requires n < |raw| && Opens(raw, n) == []
    ensures IsClose(raw, n) ==> Opens(raw, n + 1) == [] && Closed(raw, n + 1) == Closed(raw, n) && (TooDeep(raw, n + 1) <==> TooDeep(raw, n))
  {
  }

  // ------------------------------------------------------------------ what a scan finds

  lemma {:induction false} ClosedMeaning(raw: string, n: nat, span: Span)
    requires n <= |raw|
    ensures span in Closed(raw, n) <==> span.end < n && Matches(raw, span.start, span.end) && Depth(raw, span.start) < MAX_CANDIDATES
    decreases n
  {
    if n > 0 {
      ClosedMeaning(raw, n - 1, span);
      var opens := Opens(raw, n - 1);
      if IsClose(raw, n - 1) && opens != [] {
        CloseMatches(raw, n - 1);
        OpenMeaning(raw, n - 1, |opens| - 1);
      }
      if span.end == n - 1 && Matches(raw, span.start, span.end) { MatchIsInnermost(raw, span.start, span.end); }
    }
  }

  lemma {:induction false} ClosedInOrder(raw: string, n: nat, a: nat, b: nat)
    requires n <= |raw| && a < b < |Closed(raw, n)|
    ensures Closed(raw, n)[a].end < Closed(raw, n)[b].end < n
    decreases n
  {
    if b < |Closed(raw, n - 1)| {
      ClosedInOrder(raw, n - 1, a, b);
    } else {
      ClosedMeaning(raw, n - 1, Closed(raw, n - 1)[a]);
    }
  }

  /** A brace is closed once. */
  lemma OneMatch(raw: string, i: nat, j: nat, k: nat)
    requires Matches(raw, i, j) && Matches(raw, i, k)
    ensures j == k
  {
    DeeperInside(raw, i, k, j + 1);
    DeeperInside(raw, i, j, k + 1);
  }

  lemma SpanOrder()
    ensures Preorder(SpanAtMost)
  {
  }

  /** The candidates of a complete scan are exactly the matched objects, its incomplete entries exactly
      the unmatched braces. */
  lemma CompleteScanIsExact(raw: string, r: ScanResult)
    requires IsScan(raw, r) && !r.truncated
    ensures forall span :: span in r.candidates <==> Matches(raw, span.start, span.end)
    ensures forall i :: i in r.incomplete <==> Unmatched(raw, i)
  {
    SpanOrder();
    SortSorts(SpanAtMost, Closed(raw, |raw|));
    MembersOfPermutation(Closed(raw, |raw|), r.candidates);
    forall span ensures span in r.candidates <==> Matches(raw, span.start, span.end) { ClosedMeaning(raw, |raw|, span); }
    CompleteIncomplete(raw, r);
    forall i ensures i in r.incomplete <==> Unmatched(raw, i) { OpensAreUnmatched(raw, i); }
  }

  lemma CompleteIncomplete(raw: string, r: ScanResult)
    requires IsScan(raw, r) && !r.truncated
    ensures r.incomplete == Opens(raw, |raw|)
  {
    DeepStackIsTooDeep(raw);
  }

  lemma DeepStackIsTooDeep(raw: string)
    ensures Depth(raw, |raw|) > MAX_CANDIDATES ==> TooDeep(raw, |raw|)
  {
    if Depth(raw, |raw|) > MAX_CANDIDATES { OpenMeaning(raw, |raw|, MAX_CANDIDATES); }
  }

  /** In any scan, truncated or not, every candidate is a matched object and any two are nested or
      disjoint. */
  lemma CandidatesAreLaminar(raw: string, r: ScanResult, a: Span, b: Span)
    requires IsScan(raw, r) && a in r.candidates && b in r.candidates && a != b
    ensures Matches(raw, a.start, a.end) && Matches(raw, b.start, b.end)
    ensures || a.end < b.start || b.end < a.start
            || (a.start < b.start && b.end < a.end) || (b.start < a.start && a.end < b.end)
  {
    CandidateIsMatch(raw, r, a);
    CandidateIsMatch(raw, r, b);
    if a.start == b.start {
      OneMatch(raw, a.start, a.end, b.end);
    } else if a.start < b.start {
      MatchesAreLaminar(raw, a.start, a.end, b.start, b.end);
    } else {
      MatchesAreLaminar(raw, b.start, b.end, a.start, a.end);
    }
  }

  lemma CandidateIsMatch(raw: string, r: ScanResult, a: Span)
    requires IsScan(raw, r) && a in r.candidates
    ensures Matches(raw, a.start, a.end)
  {
    var kept := LastOnes(Closed(raw, |raw|), MAX_CANDIDATES);
    SpanOrder();
    SortSorts(SpanAtMost, kept);
    MembersOfPermutation(kept, r.candidates);
    assert a in Closed(raw, |raw|);
    ClosedMeaning(raw, |raw|, a);
  }

  lemma CandidatesAreDistinct(raw: string, r: ScanResult)
    requires IsScan(raw, r)
    ensures Distinct(r.candidates) && Sorted(SpanAtMost, r.candidates)
  {
    var closed := Closed(raw, |raw|);
    var kept := LastOnes(closed, MAX_CANDIDATES);
    forall a, b | 0 <= a < b < |kept| ensures kept[a] != kept[b] {
      ClosedInOrder(raw, |raw|, a + |closed| - |kept|, b + |closed| - |kept|);
    }
    SpanOrder();
    SortSorts(SpanAtMost, kept);
    DistinctPermutation(kept, r.candidates);
  }

  /** In a complete scan every brace read outside strings starts exactly one candidate or is exactly
      one incomplete entry, never both. */
  lemma EveryBraceIsAccountedFor(raw: string, r: ScanResult, i: nat)
    requires IsScan(raw, r) && !r.truncated && IsOpen(raw, i)
    ensures (exists span :: span in r.candidates && span.start == i) <==> i !in r.incomplete
    ensures forall a, b :: a in r.candidates && b in r.candidates && a.start == i && b.start == i ==> a == b
    ensures Distinct(r.candidates) && Distinct(r.incomplete)
  {
    CompleteScanIsExact(raw, r);
    CandidatesAreDistinct(raw, r);
    var j := OpenIsMatchedOrNot(raw, i, |raw|);
    if Unmatched(raw, i) {
      forall span | span in r.candidates ensures span.start != i { MatchedOrUnmatched(raw, span.start, span.end); }
    } else {
      assert Span(i, j) in r.candidates;
    }
    forall a, b | a in r.candidates && b in r.candidates && a.start == i && b.start == i ensures a == b {
      OneMatch(raw, i, a.end, b.end);
    }
    CompleteIncomplete(raw, r);
    forall p, q | 0 <= p < q < |r.incomplete| ensures r.incomplete[p] != r.incomplete[q] {
      OpenMeaning(raw, |raw|, p);
      OpenMeaning(raw, |raw|, q);
    }
  }
}
