/** A citation's quote is the file's own text: the bytes from the start of its first line up to the
    newline that ends its last one, or up to the end of the file. Lines are counted by newlines. */
module QuoteText {
  import opened Wrappers
  import opened Order
  import opened EvidenceIndex
  import opened ResultValidation
  import opened Citations

  /** Newlines among the first n bytes. */
  function Newlines(s: string, n: nat): nat
    requires n <= |s|
  {
    if n == 0 then 0 else Newlines(s, n - 1) + if s[n - 1] == '\n' then 1 else 0
  }

  lemma {:induction false} NewlinesGrow(s: string, m: nat, n: nat)
    requires m <= n <= |s|
    ensures Newlines(s, m) <= Newlines(s, n)
    ensures (forall i :: m <= i < n ==> s[i] != '\n') ==> Newlines(s, m) == Newlines(s, n)
  {
    if m < n { NewlinesGrow(s, m, n - 1); }
  }

  lemma {:induction false} StartHasNewlines(s: string, k: nat)
    requires StartOf(s, k).Some?
    ensures Newlines(s, StartOf(s, k).value) == k
    ensures StartOf(s, k).value == 0 || s[StartOf(s, k).value - 1] == '\n'
  {
    if k > 0 {
      StartHasNewlines(s, k - 1);
      NoNewlineUpTo(s, StartOf(s, k - 1).value);
    }
  }

  lemma NoNewlineUpTo(s: string, p: nat)
    requires p <= |s|
    ensures Newlines(s, NextNewline(s, p)) == Newlines(s, p)
  {
    forall i | p <= i < NextNewline(s, p) ensures s[i] != '\n' { NoEarlierNewline(s, p, i); }
    NewlinesGrow(s, p, NextNewline(s, p));
  }

  /** How many lines a file has: one for each newline, and one more for text after the last. */
  function LineCount(s: string): nat {
    Newlines(s, |s|) + if s == "" || s[|s| - 1] == '\n' then 0 else 1
  }

  lemma {:induction false} LineCountFrom(s: string, p: nat)
    requires p <= |s|
    ensures |LinesFrom(s, p)| == Newlines(s, |s|) - Newlines(s, p) + if p == |s| || s[|s| - 1] == '\n' then 0 else 1
    decreases |s| - p
  {
    var q := NextNewline(s, p);
    NoNewlineUpTo(s, p);
    if q < |s| {
      LineCountFrom(s, q + 1);
      LinesStep(s, p);
    } else {
      LinesOfOne(s, p);
      if p < |s| { NoEarlierNewline(s, p, |s| - 1); }
    }
  }

  lemma LineCountIsExact(s: string)
    ensures |Lines(s)| == LineCount(s)
  {
    LineCountFrom(s, 0);
  }

  lemma {:induction false} LineHasStart(s: string, k: nat)
    requires k < |Lines(s)|
    ensures StartOf(s, k).Some? && StartOf(s, k).value < |s|
  {
    if k == 0 {
      assert Lines("") == [];
    } else {
      LineHasStart(s, k - 1);
      var p := StartOf(s, k - 1).value;
      LinesFromStart(s, k - 1, Lines(s));
      HeadLine(s, p, Lines(s)[k - 1..]);
    }
  }

  /** The text from the start of line a to the end of line b. */
  function TextOf(s: string, a: nat, b: nat): string
    requires 1 <= a <= b <= |Lines(s)|
  {
    LineHasStart(s, a - 1);
    LineHasStart(s, b - 1);
    StartsInOrder(s, a - 1, b - 1);
    s[StartOf(s, a - 1).value..NextNewline(s, StartOf(s, b - 1).value)]
  }

  lemma {:induction false} StartsInOrder(s: string, j: nat, k: nat)
    requires j <= k && StartOf(s, k).Some?
    ensures StartOf(s, j).Some? && StartOf(s, j).value <= StartOf(s, k).value
  {
    if j < k { StartsInOrder(s, j, k - 1); }
  }

  lemma TextOfOne(s: string, a: nat)
    requires 1 <= a <= |Lines(s)|
    ensures TextOf(s, a, a) == Lines(s)[a - 1]
  {
    LineHasStart(s, a - 1);
    LineAtStart(s, a - 1);
  }

  /** The text of several lines is the first, its newline, and the text of the others. */
  lemma TextOfMore(s: string, a: nat, b: nat)
    requires 1 <= a < b <= |Lines(s)|
    ensures TextOf(s, a, b) == TextOf(s, a, a) + "\n" + TextOf(s, a + 1, b)
  {
    LineHasStart(s, a - 1);
    LineHasStart(s, a);
    LineHasStart(s, b - 1);
    StartsInOrder(s, a, b - 1);
    var p, q, end := StartOf(s, a - 1).value, NextNewline(s, StartOf(s, a - 1).value), NextNewline(s, StartOf(s, b - 1).value);
    assert StartOf(s, a) == Some(q + 1) && s[q] == '\n';
    assert s[p..q] + "\n" + s[q + 1..end] == s[p..end];
  }

  lemma {:induction false} JoinedLinesAreText(s: string, a: nat, b: nat)
    requires 1 <= a <= b <= |Lines(s)|
    ensures JoinLines(Lines(s)[a - 1..b]) == TextOf(s, a, b)
    decreases b - a
  {
    var lines := Lines(s)[a - 1..b];
    TextOfOne(s, a);
    assert lines[0] == Lines(s)[a - 1];
    if a < b {
      assert lines[1..] == Lines(s)[a..b];
      JoinedLinesAreText(s, a + 1, b);
      TextOfMore(s, a, b);
    }
  }

  /** Contiguous text that starts at the file's start or after a newline, with a - 1 newlines before
      it, and ends at a newline or the file's end, with b - 1 before that. */
  predicate IsTextAt(s: string, a: int, b: int, quote: string, start: nat, end: nat) {
    && start <= end <= |s| && quote == s[start..end]
    && (start == 0 || s[start - 1] == '\n') && (end == |s| || s[end] == '\n')
    && Newlines(s, start) == a - 1 && Newlines(s, end) == b - 1
  }

  /** The text of lines a to b. */
  ghost predicate IsTextOfLines(s: string, a: int, b: int, quote: string) {
    exists start: nat, end: nat :: IsTextAt(s, a, b, quote, start, end)
  }

  lemma TextHasItsLines(s: string, a: nat, b: nat)
    requires 1 <= a <= b <= |Lines(s)|
    ensures IsTextOfLines(s, a, b, TextOf(s, a, b))
  {
    LineHasStart(s, a - 1);
    LineHasStart(s, b - 1);
    StartsInOrder(s, a - 1, b - 1);
    StartHasNewlines(s, a - 1);
    StartHasNewlines(s, b - 1);
    NoNewlineUpTo(s, StartOf(s, b - 1).value);
    assert IsTextAt(s, a, b, TextOf(s, a, b), StartOf(s, a - 1).value, NextNewline(s, StartOf(s, b - 1).value));
  }

  /** That fixes the text. */
  lemma TextIsUnique(s: string, a: int, b: int, q: string, r: string)
    requires IsTextOfLines(s, a, b, q) && IsTextOfLines(s, a, b, r)
    ensures q == r
  {
    var i: nat, j: nat :| IsTextAt(s, a, b, q, i, j);
    var k: nat, l: nat :| IsTextAt(s, a, b, r, k, l);
    if i < k { NewlineBetween(s, i, k - 1, k); }
    if k < i { NewlineBetween(s, k, i - 1, i); }
    if j < l { NewlineBetween(s, j, j, l); }
    if l < j { NewlineBetween(s, l, l, j); }
  }

  lemma NewlineBetween(s: string, i: nat, at: nat, k: nat)
    requires i <= at < k <= |s| && s[at] == '\n'
    ensures Newlines(s, i) < Newlines(s, k)
  {
    NewlinesGrow(s, i, at);
    NewlinesGrow(s, at + 1, k);
  }

  /** A range has a quote exactly when it is at most 200 lines of the file, in order, whose text is
      not blank and no longer than 2048 bytes; the quote is then that text. */
  lemma QuoteIsFileText(content: string, a: int, b: int, trim: string -> string)
    ensures forall quote :: CanonicalQuote(content, a, b, trim) == Some(quote) <==>
              1 <= a <= b <= LineCount(content) && b - a < 200 && IsTextOfLines(content, a, b, quote) &&
              trim(quote) != "" && |quote| <= 2048
  {
    LineCountIsExact(content);
    if 1 <= a <= b <= LineCount(content) {
      JoinedLinesAreText(content, a, b);
      TextHasItsLines(content, a, b);
      forall quote | IsTextOfLines(content, a, b, quote) ensures quote == TextOf(content, a, b) {
        TextIsUnique(content, a, b, quote, TextOf(content, a, b));
      }
    }
  }

  // ------------------------------------------------------------------ accepted citations

  /** A citation quotes a known file. */
  ghost predicate QuotesFile(rules: Rules, c: Citation) {
    match rules.resolve(c.path)
    case None => false
    case Some(file) => 1 <= c.lineStart <= c.lineEnd <= LineCount(file.content) && IsTextOfLines(file.content, c.lineStart, c.lineEnd, c.quote)
  }

  /** Everything the citation walk accepts quotes its file. */
  lemma AcceptedCitationsQuoteFiles(rules: Rules, cs: seq<Citation>, requireCanonical: bool)
    requires TrimsOnce(rules.trim) && Verify(rules, cs, requireCanonical).Success?
    ensures forall c :: c in Verify(rules, cs, requireCanonical).value.out ==>
              QuotesFile(rules, c) && c.lineEnd - c.lineStart < 200 && |c.quote| <= 2048 && rules.trim(c.quote) != ""
  {
    VerifiedIsCanonical(rules, cs, requireCanonical);
    forall c | c in Verify(rules, cs, requireCanonical).value.out
      ensures QuotesFile(rules, c) && c.lineEnd - c.lineStart < 200 && |c.quote| <= 2048 && rules.trim(c.quote) != ""
    {
      CheckedQuotesFile(rules, c);
    }
  }

  lemma CheckedQuotesFile(rules: Rules, c: Citation)
    requires IsChecked(rules, c)
    ensures QuotesFile(rules, c) && c.lineEnd - c.lineStart < 200 && |c.quote| <= 2048 && rules.trim(c.quote) != ""
  {
    var file := rules.resolve(rules.trim(c.path)).value;
    QuoteIsFileText(file.content, c.lineStart, c.lineEnd, rules.trim);
  }
}
