/** Choosing the one reply among the objects found in a model's answer. */
module CandidateSelection {
  import opened Wrappers
  import opened Order
  import opened CandidateScanner

  // ------------------------------------------------------------------ an object in prose

  predicate Prose(s: string) {
    forall i :: 0 <= i < |s| ==> s[i] != '{' && s[i] != '}' && s[i] != '"'
  }

  /** One complete object: its first byte opens a brace that its last byte closes. */
  ghost predicate OneObject(s: string) {
    |s| > 0 && Matches(s, 0, |s| - 1)
  }

  lemma {:induction false} BeforeObject(pre: string, rest: string, n: nat)
    requires Prose(pre) && n <= |pre|
    ensures LexAt(pre + rest, n) == Lexer(false, false) && Depth(pre + rest, n) == 0
  {
    if n > 0 { BeforeObject(pre, rest, n - 1); }
  }

  /** Reading an object after prose is reading it alone. */
  lemma {:induction false} InsideObject(pre: string, obj: string, post: string, n: nat)
    requires Prose(pre) && n <= |obj|
    ensures LexAt(pre + obj + post, |pre| + n) == LexAt(obj, n) && Depth(pre + obj + post, |pre| + n) == Depth(obj, n)
  {
    var raw := pre + obj + post;
    if n == 0 {
      assert raw == pre + (obj + post);
      BeforeObject(pre, obj + post, |pre|);
    } else {
      InsideObject(pre, obj, post, n - 1);
      assert raw[|pre| + n - 1] == obj[n - 1];
    }
  }

  lemma {:induction false} AfterObject(pre: string, obj: string, post: string, n: nat)
    requires Prose(pre) && OneObject(obj) && Prose(post) && n <= |post|
    ensures LexAt(pre + obj + post, |pre| + |obj| + n) == Lexer(false, false) && Depth(pre + obj + post, |pre| + |obj| + n) == 0
  {
    var raw := pre + obj + post;
    if n == 0 {
      InsideObject(pre, obj, post, |obj|);
    } else {
      AfterObject(pre, obj, post, n - 1);
      assert raw[|pre| + |obj| + n - 1] == post[n - 1];
    }
  }

  lemma ObjectMatches(pre: string, obj: string, post: string)
    requires Prose(pre) && OneObject(obj) && Prose(post)
    ensures Matches(pre + obj + post, |pre|, |pre| + |obj| - 1)
  {
    var raw, last := pre + obj + post, |obj| - 1;
    InsideObject(pre, obj, post, 0);
    InsideObject(pre, obj, post, last);
    InsideObject(pre, obj, post, |obj|);
    assert raw[|pre|] == obj[0] && raw[|pre| + last] == obj[last];
    forall k | |pre| < k <= |pre| + last ensures Depth(raw, k) > Depth(raw, |pre|) {
      InsideObject(pre, obj, post, k - |pre|);
      assert Depth(obj, k - |pre|) > Depth(obj, 0);
    }
  }

  lemma BracesAreInObject(pre: string, obj: string, post: string, i: nat)
    requires Prose(pre) && Prose(post) && i < |pre + obj + post|
    ensures (pre + obj + post)[i] == '{' || (pre + obj + post)[i] == '}' ==> |pre| <= i < |pre| + |obj|
  {
    var raw := pre + obj + post;
    assert i < |pre| ==> raw[i] == pre[i];
    assert i >= |pre| + |obj| ==> raw[i] == post[i - |pre| - |obj|];
  }

  lemma ProseNeedsNoBrace(pre: string, obj: string, post: string, span: Span)
    requires Prose(pre) && Prose(post) && Matches(pre + obj + post, span.start, span.end)
    ensures |pre| <= span.start < span.end < |pre| + |obj|
  {
    BracesAreInObject(pre, obj, post, span.start);
    BracesAreInObject(pre, obj, post, span.end);
  }

  /** An object surrounded by prose comes out of any scan, complete or truncated, as the first and
      outermost candidate, with nothing incomplete. */
  lemma WrappedObjectIsOutermost(pre: string, obj: string, post: string, r: ScanResult)
    requires Prose(pre) && OneObject(obj) && Prose(post) && IsScan(pre + obj + post, r)
    ensures r.incomplete == []
    ensures r.candidates != [] && r.candidates[0] == Span(|pre|, |pre| + |obj| - 1)
    ensures forall span :: span in r.candidates ==> |pre| <= span.start < span.end < |pre| + |obj|
  {
    var raw := pre + obj + post;
    var outer := Span(|pre|, |pre| + |obj| - 1);
    AfterObject(pre, obj, post, |post|);
    assert Depth(raw, |raw|) == 0;
    ObjectMatches(pre, obj, post);
    InsideObject(pre, obj, post, 0);
    forall span | span in r.candidates ensures |pre| <= span.start < span.end < |pre| + |obj| {
      CandidateIsMatch(raw, r, span);
      ProseNeedsNoBrace(pre, obj, post, span);
    }
    OuterIsKept(pre, obj, post, r, outer);
    CandidatesAreDistinct(raw, r);
    var at :| 0 <= at < |r.candidates| && r.candidates[at] == outer;
    var first := r.candidates[0];
    assert at == 0 || SpanAtMost(first, r.candidates[at]);
    assert first in r.candidates;
    CandidateIsMatch(raw, r, first);
    OneMatch(raw, |pre|, first.end, outer.end);
  }

  /** The outermost object is the last to close. */
  lemma OuterClosesLast(pre: string, obj: string, post: string, outer: Span)
    requires Prose(pre) && Prose(post)
    requires outer.start == |pre| && outer.end == |pre| + |obj| - 1 && Matches(pre + obj + post, outer.start, outer.end)
    requires Depth(pre + obj + post, outer.start) == 0
    ensures var closed := Closed(pre + obj + post, |pre + obj + post|); closed != [] && closed[|closed| - 1] == outer
  {
    var raw := pre + obj + post;
    var closed := Closed(raw, |raw|);
    ClosedMeaning(raw, |raw|, outer);
    var at :| 0 <= at < |closed| && closed[at] == outer;
    if at < |closed| - 1 {
      ClosedInOrder(raw, |raw|, at, |closed| - 1);
      ClosedMeaning(raw, |raw|, closed[|closed| - 1]);
      ProseNeedsNoBrace(pre, obj, post, closed[|closed| - 1]);
    }
  }

  lemma OuterIsKept(pre: string, obj: string, post: string, r: ScanResult, outer: Span)
    requires Prose(pre) && Prose(post) && IsScan(pre + obj + post, r)
    requires outer.start == |pre| && outer.end == |pre| + |obj| - 1 && Matches(pre + obj + post, outer.start, outer.end)
    requires Depth(pre + obj + post, outer.start) == 0
    ensures outer in r.candidates
  {
    var raw := pre + obj + post;
    OuterClosesLast(pre, obj, post, outer);
    var kept := LastOnes(Closed(raw, |raw|), MAX_CANDIDATES);
    assert kept[|kept| - 1] == outer;
    SpanOrder();
    SortSorts(SpanAtMost, kept);
    MembersOfPermutation(kept, r.candidates);
  }

  // ------------------------------------------------------------------ selection

  const MAX_RESPONSE_BYTES: nat := 0x10_0000
  const MAX_SPAN_BYTES: nat := 0x40_0000

  datatype Category = CandidateChoice | Json | Contract | Reference | CitationCheck

  function Rank(c: Category): nat {
    match c case CitationCheck => 5 case Reference => 4 case Contract => 3 case Json => 2 case CandidateChoice => 1
  }

  /** What decoding and checking one candidate says; contractLike marks a rejected candidate that
      still looks like an attempt at a reply. */
  datatype Verdict = Valid | Invalid(category: Category, contractLike: bool)

  datatype Selection = Selected(span: Span) | Failed(category: Category)

  function SpanBytes(spans: seq<Span>): int {
    if spans == [] then 0 else SpanBytes(spans[..|spans| - 1]) + spans[|spans| - 1].end + 1 - spans[|spans| - 1].start
  }

  predicate Encloses(a: Span, b: Span) {
    a.start < b.start && a.end > b.end
  }

  /** The one valid candidate, with nothing around it that would cast doubt on it. */
  predicate IsChoice(r: ScanResult, verdict: Span -> Verdict, s: Span) {
    && s in r.candidates && verdict(s).Valid?
    && (forall c :: c in r.candidates && verdict(c).Valid? ==> c == s)
    && (forall i :: i in r.incomplete ==> s.start <= i <= s.end)
    && (forall c :: c in r.candidates && verdict(c).Invalid? ==>
          c.start <= s.end && !(verdict(c).contractLike && Encloses(c, s)))
  }

  predicate Scannable(raw: string, blank: bool, r: ScanResult) {
    !blank && |raw| <= MAX_RESPONSE_BYTES && !r.truncated && SpanBytes(r.candidates) <= MAX_SPAN_BYTES
  }

  /** A rejected candidate that casts doubt on the only valid one: it starts after it, or it looks
      like a reply and encloses it. */
  predicate Doubts(verdict: Span -> Verdict, s: Span, c: Span) {
    verdict(c).Invalid? && (c.start > s.end || (verdict(c).contractLike && Encloses(c, s)))
  }

  /** The doubt reported: an unclosed brace outside the valid candidate, or else the doubtful
      candidate that starts first. */
  ghost predicate IsDoubt(candidates: seq<Span>, incomplete: seq<nat>, verdict: Span -> Verdict, s: Span, category: Category) {
    if exists i :: i in incomplete && !(s.start <= i <= s.end) then category == Json
    else exists c :: c in candidates && Doubts(verdict, s, c) && IsFirstDoubt(candidates, verdict, s, c) &&
                     category == if verdict(c).contractLike then verdict(c).category else Json
  }

  predicate IsFirstDoubt(candidates: seq<Span>, verdict: Span -> Verdict, s: Span, c: Span) {
    forall d :: d in candidates && Doubts(verdict, s, d) ==> c.start <= d.start
  }

  /** The highest-ranked category of the rejected candidates, and no less than that of bad JSON. */
  predicate IsBestCategory(candidates: seq<Span>, verdict: Span -> Verdict, category: Category) {
    && Rank(Json) <= Rank(category)
    && (forall c :: c in candidates && verdict(c).Invalid? ==> Rank(verdict(c).category) <= Rank(category))
    && (category == Json || exists c :: c in candidates && verdict(c).Invalid? && verdict(c).category == category)
  }

  predicate NoneValid(candidates: seq<Span>, verdict: Span -> Verdict) {
    forall c :: c in candidates ==> verdict(c).Invalid?
  }

  predicate OnlyValid(candidates: seq<Span>, verdict: Span -> Verdict, s: Span) {
    s in candidates && verdict(s).Valid? && forall c :: c in candidates && verdict(c).Valid? ==> c == s
  }

  /** Why no reply was selected. */
  ghost predicate IsFailure(scannable: bool, r: ScanResult, verdict: Span -> Verdict, category: Category) {
    if !scannable || r.candidates == [] then category == CandidateChoice
    else if NoneValid(r.candidates, verdict) then IsBestCategory(r.candidates, verdict, category)
    else if exists s :: OnlyValid(r.candidates, verdict, s)
    then exists s :: OnlyValid(r.candidates, verdict, s) && IsDoubt(r.candidates, r.incomplete, verdict, s, category)
    else category == CandidateChoice
  }

  /** The selection part of parseAnalysisChatReplyCandidatesWithRequirements. */
  method Select(raw: string, blank: bool, verdict: Span -> Verdict) returns (selection: Selection, r: ScanResult)
    ensures IsScan(raw, r)
    ensures selection.Selected? ==> Scannable(raw, blank, r) && IsChoice(r, verdict, selection.span)
    ensures Scannable(raw, blank, r) ==> forall s :: IsChoice(r, verdict, s) ==> selection == Selected(s)
    ensures selection.Failed? ==> IsFailure(Scannable(raw, blank, r), r, verdict, selection.category)
  {
    r := Scan(raw);
    CandidatesAreDistinct(raw, r);
    if blank || |raw| > MAX_RESPONSE_BYTES || r.truncated || r.candidates == [] { return Failed(CandidateChoice), r; }
    var fits := SpansFit(raw, r);
    if !fits { return Failed(CandidateChoice), r; }
    var valid, rejected, best := Judge(r.candidates, verdict);
    if |valid| == 0 { return Failed(best), r; }
    assert r.candidates[0] in r.candidates;
    if |valid| > 1 {
      assert valid[0] != valid[1] && valid[0] in valid && valid[1] in valid;
      return Failed(CandidateChoice), r;
    }
    var doubt := Doubt(r.incomplete, rejected, verdict, valid[0]);
    assert valid[0] in valid && OnlyValid(r.candidates, verdict, valid[0]);
    if doubt.Some? { SameDoubt(r.candidates, rejected, r.incomplete, verdict, valid[0], doubt.value); }
    selection := if doubt.Some? then Failed(doubt.value) else Selected(valid[0]);
  }

  method SpansFit(raw: string, r: ScanResult) returns (fits: bool)
    requires IsScan(raw, r)
    ensures fits == (SpanBytes(r.candidates) <= MAX_SPAN_BYTES)
  {
    var bytes := 0;
    for k := 0 to |r.candidates|
      invariant bytes == SpanBytes(r.candidates[..k]) && 0 <= bytes <= MAX_SPAN_BYTES
    {
      assert r.candidates[..k + 1][..k] == r.candidates[..k];
      var length := r.candidates[k].end + 1 - r.candidates[k].start;
      if length > MAX_SPAN_BYTES - bytes {
        SpanBytesGrow(raw, r, k + 1);
        return false;
      }
      CandidateIsMatch(raw, r, r.candidates[k]);
      bytes := bytes + length;
    }
    assert r.candidates[..|r.candidates|] == r.candidates;
    fits := true;
  }

  lemma {:induction false} SpanBytesGrow(raw: string, r: ScanResult, k: nat)
    requires IsScan(raw, r) && k <= |r.candidates|
    ensures SpanBytes(r.candidates[..k]) <= SpanBytes(r.candidates)
    decreases |r.candidates| - k
  {
    if k < |r.candidates| {
      SpanBytesGrow(raw, r, k + 1);
      assert r.candidates[..k + 1][..k] == r.candidates[..k];
      CandidateIsMatch(raw, r, r.candidates[k]);
    } else {
      assert r.candidates[..k] == r.candidates;
    }
  }

  method Judge(candidates: seq<Span>, verdict: Span -> Verdict) returns (valid: seq<Span>, rejected: seq<Span>, best: Category)
    requires Distinct(candidates) && Sorted(SpanAtMost, candidates)
    ensures ByStart(rejected) && IsBestCategory(rejected, verdict, best)
    ensures forall c :: c in valid <==> c in candidates && verdict(c).Valid?
    ensures forall c :: c in rejected <==> c in candidates && verdict(c).Invalid?
    ensures Distinct(valid)
  {
    valid, rejected, best := [], [], Json;
    for k := 0 to |candidates|
      invariant forall c :: c in valid <==> c in candidates[..k] && verdict(c).Valid?
      invariant forall c :: c in rejected <==> c in candidates[..k] && verdict(c).Invalid?
      invariant Distinct(valid) && IsBestCategory(rejected, verdict, best)
      invariant ByStart(rejected)
    {
      var candidate := candidates[k];
      assert candidates[..k + 1] == candidates[..k] + [candidate] && candidate !in candidates[..k];
      if verdict(candidate).Valid? {
        assert candidate !in valid;
        valid := valid + [candidate];
      } else {
        StartsLast(candidates, k, rejected);
        rejected := rejected + [candidate];
        assert candidate in rejected;
        if Rank(verdict(candidate).category) > Rank(best) { best := verdict(candidate).category; }
      }
    }
    assert candidates[..|candidates|] == candidates;
  }

  predicate ByStart(spans: seq<Span>) {
    forall i, j :: 0 <= i < j < |spans| ==> spans[i].start <= spans[j].start
  }

  lemma StartsLast(candidates: seq<Span>, k: nat, rejected: seq<Span>)
    requires k < |candidates| && Sorted(SpanAtMost, candidates) && ByStart(rejected)
    requires forall c :: c in rejected ==> c in candidates[..k]
    ensures ByStart(rejected + [candidates[k]])
  {
    forall i | 0 <= i < |rejected| ensures rejected[i].start <= candidates[k].start {
      assert rejected[i] in rejected;
      var m :| 0 <= m < k && candidates[m] == rejected[i];
      assert SpanAtMost(candidates[m], candidates[k]);
    }
  }

  /** Only rejected candidates cast doubt. */
  lemma SameDoubt(candidates: seq<Span>, rejected: seq<Span>, incomplete: seq<nat>, verdict: Span -> Verdict, s: Span, category: Category)
    requires forall c :: c in rejected <==> c in candidates && verdict(c).Invalid?
    requires IsDoubt(rejected, incomplete, verdict, s, category)
    ensures IsDoubt(candidates, incomplete, verdict, s, category)
  {
    if !exists i :: i in incomplete && !(s.start <= i <= s.end) {
      var c :| c in rejected && Doubts(verdict, s, c) && IsFirstDoubt(rejected, verdict, s, c) &&
               category == if verdict(c).contractLike then verdict(c).category else Json;
      assert c in candidates && IsFirstDoubt(candidates, verdict, s, c);
    }
  }

  /** Why the only valid candidate is still not trusted. */
  method Doubt(incomplete: seq<nat>, rejected: seq<Span>, verdict: Span -> Verdict, s: Span) returns (doubt: Option<Category>)
    requires ByStart(rejected) && forall c :: c in rejected ==> verdict(c).Invalid?
    ensures doubt.Some? ==> IsDoubt(rejected, incomplete, verdict, s, doubt.value)
    ensures doubt.None? <==>
              && (forall i :: i in incomplete ==> s.start <= i <= s.end)
              && (forall c :: c in rejected ==> c.start <= s.end && !(verdict(c).contractLike && Encloses(c, s)))
  {
    for k := 0 to |incomplete|
      invariant forall i :: i in incomplete[..k] ==> s.start <= i <= s.end
    {
      assert incomplete[..k + 1] == incomplete[..k] + [incomplete[k]] && incomplete[k] in incomplete;
      if incomplete[k] > s.end || incomplete[k] < s.start { return Some(Json); }
    }
    assert incomplete[..|incomplete|] == incomplete;
    for k := 0 to |rejected|
      invariant forall c :: c in rejected[..k] ==> c.start <= s.end && !(verdict(c).contractLike && Encloses(c, s))
    {
      var candidate := rejected[k];
      assert rejected[..k + 1] == rejected[..k] + [candidate] && candidate in rejected;
      var trails := candidate.start > s.end;
      if Doubts(verdict, s, candidate) { FirstIsFirst(rejected, k, verdict, s); }
      if verdict(candidate).contractLike && (Encloses(candidate, s) || trails) { return Some(verdict(candidate).category); }
      if trails { return Some(Json); }
    }
    assert rejected[..|rejected|] == rejected;
    doubt := None;
  }

  lemma FirstIsFirst(rejected: seq<Span>, k: nat, verdict: Span -> Verdict, s: Span)
    requires k < |rejected| && ByStart(rejected) && forall c :: c in rejected[..k] ==> !Doubts(verdict, s, c)
    ensures IsFirstDoubt(rejected, verdict, s, rejected[k])
  {
    forall d | d in rejected && Doubts(verdict, s, d) ensures rejected[k].start <= d.start {
      assert forall x :: 0 <= x < k ==> rejected[x] in rejected[..k];
      var m :| 0 <= m < |rejected| && rejected[m] == d;
    }
  }

  /** A reply is only taken from an answer whose braces all match, and no object starts after it. */
  lemma ChosenReplyEndsTheAnswer(raw: string, r: ScanResult, verdict: Span -> Verdict, s: Span)
    requires IsScan(raw, r) && !r.truncated && IsChoice(r, verdict, s)
    ensures r.incomplete == []
    ensures forall i: nat :: IsOpen(raw, i) ==> i <= s.end && exists j: nat :: Matches(raw, i, j)
  {
    CompleteScanIsExact(raw, r);
    if r.incomplete != [] {
      var i := r.incomplete[0];
      assert i in r.incomplete;
      UnmatchedIsNotInside(raw, s.start, s.end, i);
    }
    forall i: nat | IsOpen(raw, i) ensures i <= s.end && exists j: nat :: Matches(raw, i, j) {
      EveryBraceIsAccountedFor(raw, r, i);
      var span :| span in r.candidates && span.start == i;
      assert Matches(raw, i, span.end);
      CandidateIsMatch(raw, r, s);
    }
  }

  lemma UnmatchedIsNotInside(raw: string, i: nat, j: nat, k: nat)
    requires Matches(raw, i, j) && Unmatched(raw, k)
    ensures k < i || j < k
  {
    MatchedOrUnmatched(raw, i, j);
    DeeperInside(raw, i, j, k);
    if k <= j { assert Depth(raw, j + 1) > Depth(raw, k); }
  }

  // ------------------------------------------------------------------ what selection demands

  /** The objects' bytes are added up, each object with both its braces. */
  lemma {:induction false} SpanBytesAddUp(spans: seq<Span>, more: seq<Span>)
    ensures SpanBytes(spans + more) == SpanBytes(spans) + SpanBytes(more)
    ensures forall span :: SpanBytes([span]) == span.end - span.start + 1
    decreases |more|
  {
    forall span ensures SpanBytes([span]) == span.end - span.start + 1 { assert [span][..0] == []; }
    if more == [] {
      assert spans + more == spans;
    } else {
      SpanBytesAddUp(spans, more[..|more| - 1]);
      assert (spans + more)[..|spans + more| - 1] == spans + more[..|more| - 1];
    }
  }

  /** The answer has at most 1 MiB and its objects together at most 4 MiB. */
  lemma ScannableMeaning(raw: string, blank: bool, r: ScanResult)
    ensures Scannable(raw, blank, r) <==> !blank && |raw| <= 1_048_576 && !r.truncated && SpanBytes(r.candidates) <= 4_194_304
  {
  }

  /** Some rejected candidate failed in this way. */
  predicate FailsBy(candidates: seq<Span>, verdict: Span -> Verdict, category: Category) {
    exists c :: c in candidates && verdict(c).Invalid? && verdict(c).category == category
  }

  /** What came closest to a reply is reported: a failed citation check before a bad reference, before a
      broken contract, before bad JSON. */
  lemma BestIsClosest(candidates: seq<Span>, verdict: Span -> Verdict, category: Category)
    ensures IsBestCategory(candidates, verdict, category) <==>
              category == if FailsBy(candidates, verdict, CitationCheck) then CitationCheck
                          else if FailsBy(candidates, verdict, Reference) then Reference
                          else if FailsBy(candidates, verdict, Contract) then Contract else Json
  {
  }

  /** What speaks against reply s in a complete scan: another valid object, a rejected one that starts
      after it, or one around it that looks like a reply. */
  predicate SpeaksAgainst(verdict: Span -> Verdict, s: Span, c: Span) {
    verdict(c).Valid? || c.start > s.end || (c.start < s.start && s.end < c.end && verdict(c).contractLike)
  }

  /** The reply chosen is the valid object that no other object of the text speaks against, in a text
      that leaves no brace open. */
  lemma ChoiceIsExact(raw: string, r: ScanResult, verdict: Span -> Verdict, s: Span)
    requires IsScan(raw, r) && !r.truncated
    ensures IsChoice(r, verdict, s) <==>
              && Matches(raw, s.start, s.end) && verdict(s).Valid?
              && (forall c: Span :: Matches(raw, c.start, c.end) && c != s ==> !SpeaksAgainst(verdict, s, c))
              && forall i: nat :: !Unmatched(raw, i)
  {
    CompleteScanIsExact(raw, r);
    if IsChoice(r, verdict, s) {
      ChosenReplyEndsTheAnswer(raw, r, verdict, s);
      forall i ensures !Unmatched(raw, i) { assert i in r.incomplete <==> Unmatched(raw, i); }
    }
    assert (forall i: nat :: !Unmatched(raw, i)) ==> r.incomplete == [] by {
      if r.incomplete != [] { assert r.incomplete[0] in r.incomplete && Unmatched(raw, r.incomplete[0]); }
    }
    forall c: Span ensures c in r.candidates <==> Matches(raw, c.start, c.end) {}
  }
}
