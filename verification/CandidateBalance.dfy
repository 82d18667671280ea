/** What the scanner takes for an object, by counting braces, and what its bounds of 256 leave out. */
module CandidateBalance {
  import opened Wrappers
  import opened Order
  import opened CandidateScanner

  // ------------------------------------------------------------------ counting braces

  /** How many more braces open than close from byte i up to byte k, outside strings. */
  function Balance(raw: string, i: nat, k: nat): int
    requires i <= k <= |raw|
  {
    if i == k then 0
    else Balance(raw, i, k - 1) + (if IsOpen(raw, k - 1) then 1 else 0) - (if IsClose(raw, k - 1) then 1 else 0)
  }

  /** From byte i on, up to every byte before k, more braces open than close. */
  ghost predicate Surplus(raw: string, i: nat, k: nat)
    requires k <= |raw| + 1
  {
    forall m :: i < m < k ==> Balance(raw, i, m) > 0
  }

  lemma {:induction false} DepthIsBalance(raw: string, i: nat, k: nat)
    requires i < k <= |raw| && IsOpen(raw, i) && Surplus(raw, i, k)
    ensures Depth(raw, k) == Depth(raw, i) + Balance(raw, i, k)
    decreases k
  {
    if k == i + 1 {
      assert Balance(raw, i, i) == 0;
    } else {
      DepthIsBalance(raw, i, k - 1);
      assert Balance(raw, i, k - 1) > 0;
    }
  }

  ghost predicate Deeper(raw: string, i: nat, k: nat)
    requires i < k <= |raw| + 1
  {
    forall m :: i < m < k ==> Depth(raw, m) > Depth(raw, i)
  }

  lemma DeeperAt(raw: string, i: nat, k: nat, m: nat)
    requires i < m < k <= |raw| + 1 && Deeper(raw, i, k)
    ensures Depth(raw, m) > Depth(raw, i)
  {
  }

  lemma DeeperOneMore(raw: string, i: nat, k: nat)
    requires i < k <= |raw|
    ensures Deeper(raw, i, k + 1) <==> Deeper(raw, i, k) && (k > i ==> Depth(raw, k) > Depth(raw, i))
  {
    if Deeper(raw, i, k + 1) {
      DeeperAt(raw, i, k + 1, k);
      forall m | i < m < k ensures Depth(raw, m) > Depth(raw, i) { DeeperAt(raw, i, k + 1, m); }
    }
    if Deeper(raw, i, k) && Depth(raw, k) > Depth(raw, i) {
      forall m | i < m < k + 1 ensures Depth(raw, m) > Depth(raw, i) { if m < k { DeeperAt(raw, i, k, m); } }
    }
  }

  /** Staying deeper than a brace is keeping a surplus from it on. */
  lemma {:induction false} DeeperIsSurplus(raw: string, i: nat, k: nat)
    requires i < k <= |raw| + 1 && IsOpen(raw, i)
    ensures Surplus(raw, i, k) <==> Deeper(raw, i, k)
    decreases k
  {
    if k > i + 1 {
      DeeperIsSurplus(raw, i, k - 1);
      if Surplus(raw, i, k - 1) { DepthIsBalance(raw, i, k - 1); }
      assert Surplus(raw, i, k) <==> Surplus(raw, i, k - 1) && Balance(raw, i, k - 1) > 0;
      DeeperOneMore(raw, i, k - 1);
    }
  }

  lemma MatchIsDeeper(raw: string, i: nat, j: nat)
    ensures Matches(raw, i, j) <==>
              i < j && IsOpen(raw, i) && IsClose(raw, j) && Deeper(raw, i, j + 1) && Depth(raw, j + 1) == Depth(raw, i)
  {
    if i < j && IsOpen(raw, i) && IsClose(raw, j) {
      forall k | i < k <= j && Matches(raw, i, j) ensures Depth(raw, k) > Depth(raw, i) { DeeperInside(raw, i, j, k); }
      forall k | i < k <= j && Deeper(raw, i, j + 1) ensures Depth(raw, k) > Depth(raw, i) { DeeperAt(raw, i, j + 1, k); }
    }
  }

  lemma UnmatchedAt(raw: string, i: nat, k: nat)
    requires Unmatched(raw, i) && i < k <= |raw|
    ensures Depth(raw, k) > Depth(raw, i)
  {
  }

  lemma UnmatchedIsDeeper(raw: string, i: nat)
    ensures Unmatched(raw, i) <==> IsOpen(raw, i) && Deeper(raw, i, |raw| + 1)
  {
    if IsOpen(raw, i) {
      forall k | i < k <= |raw| && Unmatched(raw, i) ensures Depth(raw, k) > Depth(raw, i) { UnmatchedAt(raw, i, k); }
      forall k | i < k <= |raw| && Deeper(raw, i, |raw| + 1) ensures Depth(raw, k) > Depth(raw, i) { DeeperAt(raw, i, |raw| + 1, k); }
    }
  }

  /** Byte j closes the brace at byte i: they balance for the first time. */
  ghost predicate Balanced(raw: string, i: nat, j: nat) {
    i < j && IsOpen(raw, i) && IsClose(raw, j) && Surplus(raw, i, j + 1) && Balance(raw, i, j + 1) == 0
  }

  lemma MatchIsBalanced(raw: string, i: nat, j: nat)
    ensures Matches(raw, i, j) <==> Balanced(raw, i, j)
  {
    MatchIsDeeper(raw, i, j);
    if i < j < |raw| && IsOpen(raw, i) && IsClose(raw, j) {
      DeeperIsSurplus(raw, i, j + 1);
      if Surplus(raw, i, j + 1) { DepthIsBalance(raw, i, j + 1); }
    }
  }

  lemma UnmatchedIsSurplus(raw: string, i: nat)
    ensures Unmatched(raw, i) <==> IsOpen(raw, i) && Surplus(raw, i, |raw| + 1)
  {
    UnmatchedIsDeeper(raw, i);
    if IsOpen(raw, i) { DeeperIsSurplus(raw, i, |raw| + 1); }
  }

  /** The braces open before byte n, in order: those whose surplus lasts that far. */
  lemma OpensAreSurplus(raw: string, n: nat, i: nat)
    requires n <= |raw|
    ensures i in Opens(raw, n) <==> i < n && IsOpen(raw, i) && Surplus(raw, i, n + 1)
    ensures forall p, q :: 0 <= p < q < |Opens(raw, n)| ==> Opens(raw, n)[p] < Opens(raw, n)[q]
  {
    var opens := Opens(raw, n);
    if i in opens {
      var p :| 0 <= p < |opens| && opens[p] == i;
      OpenMeaning(raw, n, p);
      DeeperIsSurplus(raw, i, n + 1);
      assert Deeper(raw, i, n + 1);
    }
    if i < n && IsOpen(raw, i) && Surplus(raw, i, n + 1) {
      DeeperIsSurplus(raw, i, n + 1);
      forall k | i < k <= n ensures Depth(raw, k) > Depth(raw, i) { DeeperAt(raw, i, n + 1, k); }
      StaysOpen(raw, i, n);
    }
    OpensRise(raw, n);
  }

  lemma {:induction false} OpensRise(raw: string, n: nat)
    requires n <= |raw|
    ensures forall p, q :: 0 <= p < q < |Opens(raw, n)| ==> Opens(raw, n)[p] < Opens(raw, n)[q]
    ensures forall p :: 0 <= p < |Opens(raw, n)| ==> Opens(raw, n)[p] < n
  {
    if n > 0 { OpensRise(raw, n - 1); }
  }

  // ------------------------------------------------------------------ the bounds

  /** The brace at byte i is opened under so many others. */
  predicate OpenedUnder(raw: string, i: nat, others: nat) {
    IsOpen(raw, i) && |Opens(raw, i)| >= others
  }

  predicate WiderFirst(a: Span, b: Span) {
    a.start < b.start || (a.start == b.start && a.end >= b.end)
  }

  /** An object of the text not opened under 256 others. */
  ghost predicate IsShallow(raw: string, span: Span) {
    Balanced(raw, span.start, span.end) && !OpenedUnder(raw, span.start, 256)
  }

  lemma ShallowIsClosed(raw: string, span: Span)
    ensures span in Closed(raw, |raw|) <==> IsShallow(raw, span)
  {
    ClosedMeaning(raw, |raw|, span);
    MatchIsBalanced(raw, span.start, span.end);
  }

  /** The candidates are shallow objects, in reading order; one is missing only if 256 others close after it. */
  lemma CandidatesCloseLast(raw: string, r: ScanResult)
    requires IsScan(raw, r)
    ensures forall a, b :: 0 <= a < b < |r.candidates| ==> WiderFirst(r.candidates[a], r.candidates[b])
    ensures forall span :: span in r.candidates ==> IsShallow(raw, span)
    ensures |r.candidates| <= 256
    ensures forall span, kept :: IsShallow(raw, span) && span !in r.candidates && kept in r.candidates ==>
              |r.candidates| == 256 && span.end < kept.end
  {
    var closed := Closed(raw, |raw|);
    var kept := LastOnes(closed, 256);
    SpanOrder();
    SortSorts(SpanAtMost, kept);
    MembersOfPermutation(kept, r.candidates);
    forall span ensures span in closed <==> IsShallow(raw, span) { ShallowIsClosed(raw, span); }
    forall span | span in kept ensures span in closed {}
    forall a, b | 0 <= a < b < |r.candidates| ensures WiderFirst(r.candidates[a], r.candidates[b]) {
      assert SpanAtMost(r.candidates[a], r.candidates[b]);
    }
    forall span, other | span in closed && span !in kept && other in kept ensures |kept| == 256 && span.end < other.end {
      LaterClose(raw, kept, span, other);
    }
  }

  predicate CloseInOrder(spans: seq<Span>) {
    forall a, b :: 0 <= a < b < |spans| ==> spans[a].end < spans[b].end
  }

  lemma DroppedCloseFirst(spans: seq<Span>, span: Span, other: Span)
    requires CloseInOrder(spans) && span in spans && span !in LastOnes(spans, 256) && other in LastOnes(spans, 256)
    ensures |LastOnes(spans, 256)| == 256 && span.end < other.end
  {
    var kept := LastOnes(spans, 256);
    var cut := |spans| - |kept|;
    var i :| 0 <= i < |spans| && spans[i] == span;
    var j :| 0 <= j < |kept| && kept[j] == other;
    forall n | cut <= n < |spans| ensures spans[n] in kept { assert kept[n - cut] == spans[n]; }
    assert spans[cut + j] == other;
  }

  lemma LaterClose(raw: string, kept: seq<Span>, span: Span, other: Span)
    requires kept == LastOnes(Closed(raw, |raw|), 256) && span in Closed(raw, |raw|) && span !in kept && other in kept
    ensures |kept| == 256 && span.end < other.end
  {
    var closed := Closed(raw, |raw|);
    forall a, b | 0 <= a < b < |closed| ensures closed[a].end < closed[b].end { ClosedInOrder(raw, |raw|, a, b); }
    DroppedCloseFirst(closed, span, other);
  }

  /** The incomplete entries are unclosed braces, outermost first; one is missing only if 256 before it
      are there. */
  lemma IncompleteOpenFirst(raw: string, r: ScanResult)
    requires IsScan(raw, r)
    ensures forall p, q :: 0 <= p < q < |r.incomplete| ==> r.incomplete[p] < r.incomplete[q]
    ensures forall i :: i in r.incomplete ==> IsOpen(raw, i) && Surplus(raw, i, |raw| + 1)
    ensures |r.incomplete| <= 256
    ensures forall i, kept :: IsOpen(raw, i) && Surplus(raw, i, |raw| + 1) && i !in r.incomplete && kept in r.incomplete ==>
              |r.incomplete| == 256 && kept < i
  {
    var opens := Opens(raw, |raw|);
    OpensRise(raw, |raw|);
    forall i: nat ensures i in opens <==> IsOpen(raw, i) && Surplus(raw, i, |raw| + 1) {
      OpensAreSurplus(raw, |raw|, i);
    }
    forall i | i in r.incomplete ensures i in opens {}
    forall i, kept | i in opens && i !in r.incomplete && kept in r.incomplete ensures |r.incomplete| == 256 && kept < i {
      var p :| 0 <= p < |opens| && opens[p] == i;
      var q :| 0 <= q < |r.incomplete| && r.incomplete[q] == kept;
      forall n | 0 <= n < |r.incomplete| ensures opens[n] in r.incomplete { assert r.incomplete[n] == opens[n]; }
    }
  }

  /** A scan is truncated exactly when a brace is opened under 256 others or a shallow object is left out. */
  lemma TruncationIsExact(raw: string, r: ScanResult)
    requires IsScan(raw, r)
    ensures r.truncated <==> (exists i: nat :: OpenedUnder(raw, i, 256)) || exists span :: IsShallow(raw, span) && span !in r.candidates
  {
    var closed := Closed(raw, |raw|);
    var kept := LastOnes(closed, 256);
    SpanOrder();
    SortSorts(SpanAtMost, kept);
    MembersOfPermutation(kept, r.candidates);
    forall span ensures span in closed <==> IsShallow(raw, span) { ShallowIsClosed(raw, span); }
    assert TooDeep(raw, |raw|) <==> exists i: nat :: OpenedUnder(raw, i, 256) by {
      forall i: nat ensures OpenedUnder(raw, i, 256) <==> i < |raw| && IsOpen(raw, i) && Depth(raw, i) >= MAX_CANDIDATES {}
    }
    if |closed| > 256 {
      FirstIsDropped(raw, closed, kept);
      assert IsShallow(raw, closed[0]) && closed[0] !in r.candidates;
    }
  }

  lemma FirstIsDropped(raw: string, closed: seq<Span>, kept: seq<Span>)
    requires closed == Closed(raw, |raw|) && kept == LastOnes(closed, 256) && |closed| > 256
    ensures closed[0] !in kept
  {
    forall n | 0 <= n < |kept| ensures kept[n] != closed[0] { ClosedInOrder(raw, |raw|, 0, n + |closed| - |kept|); }
  }
}
