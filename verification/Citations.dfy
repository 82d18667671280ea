/** Verifying the citations of an analysis against the workspace files: the artifact and the source
    check are the same walk under different rules. */
module Citations {
  import opened Wrappers
  import opened Order
  import opened EvidenceIndex
  import opened ResultValidation

  datatype Citation = Citation(path: string, lineStart: int, lineEnd: int, quote: string, verified: bool)

  datatype File = File(content: string, identity: string)

  /** How one kind of citation is checked: resolve says which paths are known, safe and readable, and
      under which identity, while the files do not change. Only source citations carry a verified
      mark, and only artifact citations must not be missing. */
  datatype Rules = Rules(isSource: bool, max: nat, trim: string -> string, resolve: string -> Option<File>)

  const MAX_EVIDENCE_CITATIONS: nat := 20
  const MAX_SOURCE_CITATIONS: nat := 10

  ghost predicate TrimsOnce(trim: string -> string) {
    forall s :: trim(trim(s)) == trim(s)
  }

  function PathCode(rules: Rules): Code { if rules.isSource then SourcePath else ArtifactPath }
  function LineCode(rules: Rules): Code { if rules.isSource then SourceLineRange else ArtifactLineRange }
  function OverlapCode(rules: Rules): Code { if rules.isSource then SourceOverlap else ArtifactOverlap }
  function CountCode(rules: Rules): Code { if rules.isSource then SourceCount else ArtifactCount }

  /** One citation: its path trimmed and its quote read from the file. */
  function Check(rules: Rules, c: Citation, requireCanonical: bool): Result<Citation, Code> {
    var path := rules.trim(c.path);
    match rules.resolve(path)
    case None => Failure(PathCode(rules))
    case Some(file) =>
      match CanonicalQuote(file.content, c.lineStart, c.lineEnd, rules.trim)
      case None => Failure(LineCode(rules))
      case Some(quote) =>
        if requireCanonical && (c.quote != quote || (rules.isSource && !c.verified)) then Failure(LineCode(rules))
        else Success(c.(path := path, quote := quote, verified := rules.isSource || c.verified))
  }

  function IdentityOf(rules: Rules, c: Citation): string {
    match rules.resolve(c.path) case None => "" case Some(file) => file.identity
  }

  /** Two citations of the same file that share a line. */
  predicate Clash(rules: Rules, a: Citation, b: Citation) {
    IdentityOf(rules, a) == IdentityOf(rules, b) && a.lineStart <= b.lineEnd && b.lineStart <= a.lineEnd
  }

  predicate ClashesWithAny(rules: Rules, out: seq<Citation>, c: Citation) {
    exists k :: k in out && Clash(rules, k, c)
  }

  datatype Gathered = Gathered(out: seq<Citation>, warnings: set<Code>)

  function Added(rules: Rules, g: Gathered, c: Citation): Gathered {
    if ClashesWithAny(rules, g.out, c) then g.(warnings := g.warnings + {OverlapCode(rules)})
    else if |g.out| == rules.max then g.(warnings := g.warnings + {CountCode(rules)})
    else g.(out := g.out + [c])
  }

  /** The walk over the citations in order; the first bad one ends it. */
  function Gather(rules: Rules, cs: seq<Citation>, requireCanonical: bool): Result<Gathered, Code> {
    if cs == [] then Success(Gathered([], {}))
    else
      match Gather(rules, cs[..|cs| - 1], requireCanonical)
      case Failure(code) => Failure(code)
      case Success(g) =>
        match Check(rules, cs[|cs| - 1], requireCanonical)
        case Failure(code) => Failure(code)
        case Success(c) => Success(Added(rules, g, c))
  }

  predicate CitationAtMost(a: Citation, b: Citation) {
    if a.path != b.path then Less(a.path, b.path)
    else if a.lineStart != b.lineStart then a.lineStart < b.lineStart
    else a.lineEnd <= b.lineEnd
  }

  function Verify(rules: Rules, cs: seq<Citation>, requireCanonical: bool): Result<Gathered, Code> {
    if !rules.isSource && cs == [] then Failure(ArtifactCount)
    else
      match Gather(rules, cs, requireCanonical)
      case Failure(code) => Failure(code)
      case Success(g) =>
        if !rules.isSource && g.out == [] then Failure(ArtifactCount)
        else Success(Gathered(Sort(CitationAtMost, g.out), if |cs| > rules.max then g.warnings + {CountCode(rules)} else g.warnings))
  }

  // ------------------------------------------------------------------ the loop

  datatype Span = Span(first: int, last: int)

  /** overlapsWorkspaceCitation. */
  method OverlapsCitation(ranges: seq<Span>, lineStart: int, lineEnd: int) returns (overlaps: bool)
    ensures overlaps == exists span :: span in ranges && lineStart <= span.last && span.first <= lineEnd
  {
    for k := 0 to |ranges|
      invariant forall i :: 0 <= i < k ==> !(lineStart <= ranges[i].last && ranges[i].first <= lineEnd)
    {
      if lineStart <= ranges[k].last && ranges[k].first <= lineEnd {
        assert ranges[k] in ranges;
        return true;
      }
    }
    overlaps := false;
  }

  function SeenAt(seen: map<string, seq<Span>>, identity: string): seq<Span> {
    if identity in seen then seen[identity] else []
  }

  /** The recorded spans are those of the citations kept so far, by file identity. */
  ghost predicate Records(rules: Rules, seen: map<string, seq<Span>>, out: seq<Citation>) {
    forall identity, span :: span in SeenAt(seen, identity) <==>
      exists k :: k in out && IdentityOf(rules, k) == identity && span == Span(k.lineStart, k.lineEnd)
  }

  lemma RecordedClash(rules: Rules, seen: map<string, seq<Span>>, out: seq<Citation>, c: Citation)
    requires Records(rules, seen, out)
    ensures ClashesWithAny(rules, out, c) <==>
              exists span :: span in SeenAt(seen, IdentityOf(rules, c)) && c.lineStart <= span.last && span.first <= c.lineEnd
  {
    if ClashesWithAny(rules, out, c) {
      var k :| k in out && Clash(rules, k, c);
      assert Span(k.lineStart, k.lineEnd) in SeenAt(seen, IdentityOf(rules, c));
    }
  }

  lemma RecordOne(rules: Rules, seen: map<string, seq<Span>>, out: seq<Citation>, c: Citation)
    requires Records(rules, seen, out)
    ensures var identity := IdentityOf(rules, c);
            Records(rules, seen[identity := SeenAt(seen, identity) + [Span(c.lineStart, c.lineEnd)]], out + [c])
  {
    var identity := IdentityOf(rules, c);
    var after := seen[identity := SeenAt(seen, identity) + [Span(c.lineStart, c.lineEnd)]];
    assert forall k :: k in out + [c] <==> k in out || k == c;
    forall other, span
      ensures span in SeenAt(after, other) <==>
              exists k :: k in out + [c] && IdentityOf(rules, k) == other && span == Span(k.lineStart, k.lineEnd)
    {
      assert span in SeenAt(after, other) <==> span in SeenAt(seen, other) || (other == identity && span == Span(c.lineStart, c.lineEnd));
      if span in SeenAt(seen, other) {
        var k :| k in out && IdentityOf(rules, k) == other && span == Span(k.lineStart, k.lineEnd);
        assert k in out + [c];
      }
    }
  }

  lemma {:induction false} FailureSticks(rules: Rules, cs: seq<Citation>, requireCanonical: bool, k: nat)
    requires k <= |cs| && Gather(rules, cs[..k], requireCanonical).Failure?
    ensures Gather(rules, cs, requireCanonical) == Gather(rules, cs[..k], requireCanonical)
    decreases |cs|
  {
    if k < |cs| {
      assert cs[..|cs| - 1][..k] == cs[..k];
      FailureSticks(rules, cs[..|cs| - 1], requireCanonical, k);
    } else {
      assert cs[..k] == cs;
    }
  }

  lemma GatherOne(rules: Rules, cs: seq<Citation>, requireCanonical: bool, k: nat)
    requires k < |cs| && Gather(rules, cs[..k], requireCanonical).Success?
    ensures Gather(rules, cs[..k + 1], requireCanonical) ==
            match Check(rules, cs[k], requireCanonical)
            case Failure(code) => Failure(code)
            case Success(c) => Success(Added(rules, Gather(rules, cs[..k], requireCanonical).value, c))
  {
    var longer := cs[..k + 1];
    assert longer[..|longer| - 1] == cs[..k] && longer[|longer| - 1] == cs[k];
  }

  /** verifyWorkspaceArtifactCitations and verifyWorkspaceSourceCitations. */
  method VerifyCitations(rules: Rules, cs: seq<Citation>, requireCanonical: bool) returns (result: Result<Gathered, Code>)
    ensures result == Verify(rules, cs, requireCanonical)
  {
    if !rules.isSource && cs == [] { return Failure(ArtifactCount); }
    var warnings: set<Code> := {};
    var out: seq<Citation>, seen: map<string, seq<Span>> := [], map[];
    for k := 0 to |cs|
      invariant Gather(rules, cs[..k], requireCanonical) == Success(Gathered(out, warnings))
      invariant Records(rules, seen, out)
    {
      GatherOne(rules, cs, requireCanonical, k);
      var checked := CheckOne(rules, cs[k], requireCanonical);
      if checked.Failure? {
        FailureSticks(rules, cs, requireCanonical, k + 1);
        return Failure(checked.error);
      }
      var citation := checked.value;
      var identity := IdentityOf(rules, citation);
      RecordedClash(rules, seen, out, citation);
      var overlaps := OverlapsCitation(SeenAt(seen, identity), citation.lineStart, citation.lineEnd);
      if overlaps {
        warnings := warnings + {OverlapCode(rules)};
      } else if |out| == rules.max {
        warnings := warnings + {CountCode(rules)};
      } else {
        RecordOne(rules, seen, out, citation);
        seen := seen[identity := SeenAt(seen, identity) + [Span(citation.lineStart, citation.lineEnd)]];
        out := out + [citation];
      }
    }
    assert cs[..|cs|] == cs;
    if |cs| > rules.max { warnings := warnings + {CountCode(rules)}; }
    if !rules.isSource && out == [] { return Failure(ArtifactCount); }
    result := Success(Gathered(Sort(CitationAtMost, out), warnings));
  }

  method CheckOne(rules: Rules, c: Citation, requireCanonical: bool) returns (result: Result<Citation, Code>)
    ensures result == Check(rules, c, requireCanonical)
  {
    var citation := c.(path := rules.trim(c.path));
    var file := rules.resolve(citation.path);
    if file.None? { return Failure(PathCode(rules)); }
    var quote := CanonicalQuote(file.value.content, citation.lineStart, citation.lineEnd, rules.trim);
    if quote.None? { return Failure(LineCode(rules)); }
    if requireCanonical && citation.quote != quote.value { return Failure(LineCode(rules)); }
    if requireCanonical && rules.isSource && !citation.verified { return Failure(LineCode(rules)); }
    citation := citation.(quote := quote.value);
    if rules.isSource { citation := citation.(verified := true); }
    result := Success(citation);
  }

  // ------------------------------------------------------------------ what comes out

  ghost predicate NoClashes(rules: Rules, cs: seq<Citation>) {
    forall i, j :: 0 <= i < j < |cs| ==> !Clash(rules, cs[i], cs[j])
  }

  predicate IsChecked(rules: Rules, c: Citation) {
    Check(rules, c, true) == Success(c)
  }

  /** Citations as they stand in a canonical analysis: each already in checked form, sorted, no two
      of one file overlapping, no more than allowed. */
  ghost predicate CanonicalCitations(rules: Rules, cs: seq<Citation>) {
    && |cs| <= rules.max && (!rules.isSource ==> cs != [])
    && (forall c :: c in cs ==> IsChecked(rules, c))
    && NoClashes(rules, cs) && Sorted(CitationAtMost, cs)
  }

  lemma CheckSettles(rules: Rules, c: Citation, requireCanonical: bool)
    requires TrimsOnce(rules.trim) && Check(rules, c, requireCanonical).Success?
    ensures IsChecked(rules, Check(rules, c, requireCanonical).value)
  {
    assert rules.trim(rules.trim(c.path)) == rules.trim(c.path);
  }

  lemma CheckedOverlapsItself(rules: Rules, c: Citation)
    requires IsChecked(rules, c)
    ensures c.lineStart <= c.lineEnd && Clash(rules, c, c)
  {
  }

  /** Why an input citation is not among those kept: it clashes with a kept one, or there was no room. */
  ghost predicate Accounted(rules: Rules, out: seq<Citation>, c: Citation, requireCanonical: bool) {
    Check(rules, c, requireCanonical).Success? &&
    var d := Check(rules, c, requireCanonical).value; d in out || ClashesWithAny(rules, out, d) || |out| == rules.max
  }

  ghost predicate CleanSoFar(rules: Rules, out: seq<Citation>) {
    |out| <= rules.max && NoClashes(rules, out) && forall c :: c in out ==> IsChecked(rules, c)
  }

  lemma AddedIsClean(rules: Rules, g: Gathered, c: Citation)
    requires CleanSoFar(rules, g.out) && IsChecked(rules, c)
    ensures CleanSoFar(rules, Added(rules, g, c).out)
    ensures rules.max > 0 ==> Added(rules, g, c).out != []
  {
    var out := Added(rules, g, c).out;
    if out == g.out + [c] {
      forall i, j | 0 <= i < j < |out| ensures !Clash(rules, out[i], out[j]) {
        if j == |g.out| { assert g.out[i] in g.out; }
      }
    }
  }

  lemma {:induction false} GatheredIsClean(rules: Rules, cs: seq<Citation>, requireCanonical: bool)
    requires TrimsOnce(rules.trim) && Gather(rules, cs, requireCanonical).Success?
    ensures var out := Gather(rules, cs, requireCanonical).value.out;
            CleanSoFar(rules, out) && (cs != [] && rules.max > 0 ==> out != [])
    decreases |cs|
  {
    if cs != [] {
      var rest, last := cs[..|cs| - 1], cs[|cs| - 1];
      GatheredIsClean(rules, rest, requireCanonical);
      CheckSettles(rules, last, requireCanonical);
      AddedIsClean(rules, Gather(rules, rest, requireCanonical).value, Check(rules, last, requireCanonical).value);
    }
  }

  lemma {:induction false} NothingDroppedSilently(rules: Rules, cs: seq<Citation>, requireCanonical: bool, k: nat)
    requires Gather(rules, cs, requireCanonical).Success? && k < |cs|
    ensures Accounted(rules, Gather(rules, cs, requireCanonical).value.out, cs[k], requireCanonical)
    decreases |cs|
  {
    var rest := cs[..|cs| - 1];
    var before, after := Gather(rules, rest, requireCanonical).value.out, Gather(rules, cs, requireCanonical).value.out;
    if k < |rest| {
      NothingDroppedSilently(rules, rest, requireCanonical, k);
      var d := Check(rules, cs[k], requireCanonical).value;
      if ClashesWithAny(rules, before, d) {
        var b :| b in before && Clash(rules, b, d);
        assert b in after;
      }
    }
  }

  lemma {:induction false} CleanGathersItself(rules: Rules, cs: seq<Citation>)
    requires |cs| <= rules.max && NoClashes(rules, cs) && forall c :: c in cs ==> IsChecked(rules, c)
    ensures Gather(rules, cs, true) == Success(Gathered(cs, {}))
    decreases |cs|
  {
    if cs != [] {
      var rest, last := cs[..|cs| - 1], cs[|cs| - 1];
      CleanGathersItself(rules, rest);
      assert last in cs && rest + [last] == cs;
    }
  }

  lemma CitationOrder()
    ensures Preorder(CitationAtMost)
  {
    forall a, b ensures CitationAtMost(a, b) || CitationAtMost(b, a) { LessIsStrict(a.path, b.path); }
    forall a, b, c | CitationAtMost(a, b) && CitationAtMost(b, c) ensures CitationAtMost(a, c) {
      LessIsStrict(a.path, b.path);
      LessIsStrict(b.path, c.path);
      if Less(a.path, b.path) && Less(b.path, c.path) { LessIsTransitive(a.path, b.path, c.path); }
    }
  }

  lemma NoClashesPermute(rules: Rules, s: seq<Citation>, t: seq<Citation>)
    requires multiset(s) == multiset(t) && NoClashes(rules, s) && forall c :: c in s ==> IsChecked(rules, c)
    ensures NoClashes(rules, t)
  {
    forall i, j | 0 <= i < j < |s| ensures s[i] != s[j] {
      assert s[i] in s;
      CheckedOverlapsItself(rules, s[i]);
    }
    DistinctPermutation(s, t);
    MembersOfPermutation(s, t);
    forall i, j | 0 <= i < j < |t| ensures !Clash(rules, t[i], t[j]) {
      assert t[i] in s && t[j] in s && t[i] != t[j];
      var a :| 0 <= a < |s| && s[a] == t[i];
      var b :| 0 <= b < |s| && s[b] == t[j];
      assert a < b ==> !Clash(rules, s[a], s[b]);
      assert b < a ==> !Clash(rules, s[b], s[a]);
    }
  }

  /** Whatever is accepted comes out canonical. */
  lemma VerifiedIsCanonical(rules: Rules, cs: seq<Citation>, requireCanonical: bool)
    requires TrimsOnce(rules.trim) && Verify(rules, cs, requireCanonical).Success?
    ensures CanonicalCitations(rules, Verify(rules, cs, requireCanonical).value.out)
  {
    var out := Gather(rules, cs, requireCanonical).value.out;
    var sorted := Sort(CitationAtMost, out);
    GatheredIsClean(rules, cs, requireCanonical);
    CitationOrder();
    SortSorts(CitationAtMost, out);
    MembersOfPermutation(out, sorted);
    NoClashesPermute(rules, out, sorted);
  }

  /** Checking canonical citations again changes nothing and warns of nothing; and only canonical ones
      pass the strict check that way. */
  lemma CanonicalIsFixedPoint(rules: Rules, cs: seq<Citation>)
    requires TrimsOnce(rules.trim)
    ensures CanonicalCitations(rules, cs) <==> Verify(rules, cs, true) == Success(Gathered(cs, {}))
  {
    if CanonicalCitations(rules, cs) {
      CleanGathersItself(rules, cs);
      SortOfSorted(CitationAtMost, cs);
    }
    if Verify(rules, cs, true) == Success(Gathered(cs, {})) { VerifiedIsCanonical(rules, cs, true); }
  }

  lemma KeptDoNotClash(rules: Rules, out: seq<Citation>, a: Citation, b: Citation)
    requires NoClashes(rules, out) && a in out && b in out
    ensures a == b || !Clash(rules, a, b) || !Clash(rules, b, a)
  {
    if a != b {
      var i :| 0 <= i < |out| && out[i] == a;
      var j :| 0 <= j < |out| && out[j] == b;
      if i < j { assert !Clash(rules, out[i], out[j]); } else { assert !Clash(rules, out[j], out[i]); }
    }
  }

  /** An unstable sort has no choice: any sorted arrangement of the kept citations is the same. */
  lemma SortIsForced(rules: Rules, out: seq<Citation>, arranged: seq<Citation>)
    requires NoClashes(rules, out) && forall c :: c in out ==> IsChecked(rules, c)
    requires multiset(arranged) == multiset(out) && Sorted(CitationAtMost, arranged)
    ensures arranged == Sort(CitationAtMost, out)
  {
    CitationOrder();
    SortSorts(CitationAtMost, out);
    MembersOfPermutation(out, arranged);
    forall a, b | a in arranged && b in arranged && CitationAtMost(a, b) && CitationAtMost(b, a) ensures a == b {
      LessIsStrict(a.path, b.path);
      CheckedOverlapsItself(rules, a);
      assert Clash(rules, a, b) && Clash(rules, b, a);
      KeptDoNotClash(rules, out, a, b);
    }
    SortedIsUnique(CitationAtMost, arranged, Sort(CitationAtMost, out));
  }
}
