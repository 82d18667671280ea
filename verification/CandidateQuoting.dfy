/** What the scanner takes for a string: a quote opens one, and the next quote after an even run of
    backslashes closes it (section 7 of RFC 8259). Stated on the bytes, without the scanner's flags. */
module CandidateQuoting {
  import opened Wrappers
  import opened Order
  import opened CandidateScanner

  /** How many backslashes stand directly before byte i, counting back no further than a byte. */
  function Backslashes(raw: string, from: nat, i: nat): nat
    requires i <= |raw|
    decreases i
  {
    if i > from && raw[i - 1] == '\\' then 1 + Backslashes(raw, from, i - 1) else 0
  }

  function AfterLast(quotes: seq<nat>): nat {
    if quotes == [] then 0 else quotes[|quotes| - 1] + 1
  }

  /** Byte i is a quote that opens a string or closes the one opened by the last of these quotes. */
  predicate Delimits(raw: string, quotes: seq<nat>, i: nat)
    requires i < |raw|
  {
    raw[i] == '"' && (|quotes| % 2 == 0 || Backslashes(raw, AfterLast(quotes), i) % 2 == 0)
  }

  /** The delimiting quotes before byte n, opening and closing in turn. */
  function Delimiters(raw: string, n: nat): seq<nat>
    requires n <= |raw|
  {
    if n == 0 then []
    else
      var before := Delimiters(raw, n - 1);
      if Delimits(raw, before, n - 1) then before + [n - 1] else before
  }

  /** Byte n is inside a string: an odd number of delimiting quotes stand before it. */
  predicate InString(raw: string, n: nat)
    requires n <= |raw|
  {
    |Delimiters(raw, n)| % 2 == 1
  }

  /** A byte delimits exactly when it is a quote and, inside a string, an even run of backslashes
      counted from the opening quote stands before it. */
  lemma {:induction false} DelimitersMeaning(raw: string, n: nat, i: nat)
    requires i < n <= |raw|
    ensures i in Delimiters(raw, n) <==>
              raw[i] == '"' && (InString(raw, i) ==> Backslashes(raw, AfterLast(Delimiters(raw, i)), i) % 2 == 0)
    ensures forall q :: q in Delimiters(raw, i) ==> q < i
    decreases n
  {
    DelimitersAreEarlier(raw, n - 1);
    DelimitersAreEarlier(raw, i);
    if i < n - 1 { DelimitersMeaning(raw, n - 1, i); }
  }

  lemma {:induction false} DelimitersAreEarlier(raw: string, n: nat)
    requires n <= |raw|
    ensures forall q :: q in Delimiters(raw, n) ==> q < n
  {
    if n > 0 { DelimitersAreEarlier(raw, n - 1); }
  }

  /** The scanner's two flags: inside a string, and after an odd run of backslashes in it. */
  lemma {:induction false} QuotedMeansInString(raw: string, n: nat)
    requires n <= |raw|
    ensures LexAt(raw, n).quoted <==> InString(raw, n)
    ensures LexAt(raw, n).escaped <==> InString(raw, n) && Backslashes(raw, AfterLast(Delimiters(raw, n)), n) % 2 == 1
  {
    if n > 0 {
      QuotedMeansInString(raw, n - 1);
      DelimitersAreEarlier(raw, n - 1);
      var before := Delimiters(raw, n - 1);
      assert before != [] ==> before[|before| - 1] in before;
      assert AfterLast(before) <= n - 1;
      assert AfterLast(before + [n - 1]) == n && Backslashes(raw, n, n) == 0;
    }
  }

  /** The braces that count are those outside strings. */
  lemma BracesCountOutsideStrings(raw: string, i: nat)
    requires i < |raw|
    ensures IsOpen(raw, i) <==> raw[i] == '{' && !InString(raw, i)
    ensures IsClose(raw, i) <==> raw[i] == '}' && !InString(raw, i)
  {
    QuotedMeansInString(raw, i);
  }

  /** Any scan starts and ends its candidates at braces outside strings, and a complete one accounts
      for exactly those opening braces. */
  lemma ScanReadsOutsideStrings(raw: string, r: ScanResult)
    requires IsScan(raw, r)
    ensures forall span :: span in r.candidates ==>
              span.start < span.end < |raw| && raw[span.start] == '{' && raw[span.end] == '}' &&
              !InString(raw, span.start) && !InString(raw, span.end)
    ensures !r.truncated ==> forall i :: 0 <= i < |raw| ==>
              (raw[i] == '{' && !InString(raw, i) <==> i in r.incomplete || exists span :: span in r.candidates && span.start == i)
  {
    forall span | span in r.candidates
      ensures span.start < span.end < |raw| && raw[span.start] == '{' && raw[span.end] == '}'
      ensures !InString(raw, span.start) && !InString(raw, span.end)
    {
      CandidateIsMatch(raw, r, span);
      BracesCountOutsideStrings(raw, span.start);
      BracesCountOutsideStrings(raw, span.end);
    }
    if !r.truncated {
      forall i: nat | i < |raw|
        ensures raw[i] == '{' && !InString(raw, i) <==> i in r.incomplete || exists span :: span in r.candidates && span.start == i
      {
        BracesCountOutsideStrings(raw, i);
        if IsOpen(raw, i) { EveryBraceIsAccountedFor(raw, r, i); }
        if i in r.incomplete { CompleteScanIsExact(raw, r); }
      }
    }
  }
}
