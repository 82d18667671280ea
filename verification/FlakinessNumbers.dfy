/** The published numbers, dates and lists, in terms of a test's outcomes. */
module FlakinessNumbers {
  import opened Wrappers
  import opened Order
  import opened Flakiness
  import opened FlakinessReport

  // ------------------------------------------------------------------ counts

  function FailedRuns(outcomes: seq<Outcome>): set<nat> {
    set i: nat | i < |outcomes| && !outcomes[i].passed
  }

  function PassedRuns(outcomes: seq<Outcome>): set<nat> {
    set i: nat | i < |outcomes| && outcomes[i].passed
  }

  predicate FlipsAt(outcomes: seq<Outcome>, i: nat) {
    0 < i < |outcomes| && outcomes[i].passed != outcomes[i - 1].passed
  }

  /** The runs that ended otherwise than the next newer one. */
  function Flipped(outcomes: seq<Outcome>): set<nat> {
    set i: nat | 0 < i < |outcomes| && FlipsAt(outcomes, i)
  }

  function FailedWith(g: Grouping, outcomes: seq<Outcome>, hash: string): set<nat> {
    set i: nat | i < |outcomes| && !outcomes[i].passed && g.hash(g.normalize(outcomes[i].message)) == hash
  }

  lemma Grows(before: set<nat>, after: set<nat>, n: nat, more: bool)
    requires n !in before && after == if more then before + {n} else before
    ensures |after| == |before| + if more then 1 else 0
  {
  }

  lemma {:induction false} FailuresAreExact(outcomes: seq<Outcome>)
    ensures Failures(outcomes) == |FailedRuns(outcomes)|
    decreases |outcomes|
  {
    if outcomes != [] {
      var n := |outcomes| - 1;
      var rest, last := outcomes[..n], outcomes[n];
      FailuresAreExact(rest);
      assert forall i :: 0 <= i < n ==> rest[i] == outcomes[i];
      Grows(FailedRuns(rest), FailedRuns(outcomes), n, !last.passed);
    }
  }

  lemma {:induction false} PassesAreExact(outcomes: seq<Outcome>)
    ensures Passes(outcomes) == |PassedRuns(outcomes)|
    decreases |outcomes|
  {
    if outcomes != [] {
      var n := |outcomes| - 1;
      var rest, last := outcomes[..n], outcomes[n];
      PassesAreExact(rest);
      assert forall i :: 0 <= i < n ==> rest[i] == outcomes[i];
      Grows(PassedRuns(rest), PassedRuns(outcomes), n, last.passed);
    }
  }

  lemma {:induction false} FailuresWithAreExact(g: Grouping, outcomes: seq<Outcome>, hash: string)
    ensures FailuresWith(g, outcomes, hash) == |FailedWith(g, outcomes, hash)|
    decreases |outcomes|
  {
    if outcomes != [] {
      var n := |outcomes| - 1;
      var rest, last := outcomes[..n], outcomes[n];
      FailuresWithAreExact(g, rest, hash);
      assert forall i :: 0 <= i < n ==> rest[i] == outcomes[i];
      Grows(FailedWith(g, rest, hash), FailedWith(g, outcomes, hash), n, !last.passed && HashOf(g, last) == hash);
    }
  }

  lemma {:induction false} FlipsAreExact(outcomes: seq<Outcome>)
    ensures Flips(outcomes) == |Flipped(outcomes)|
    decreases |outcomes|
  {
    if |outcomes| >= 2 {
      var n := |outcomes| - 1;
      var rest := outcomes[..n];
      FlipsAreExact(rest);
      assert forall i :: 0 <= i < n ==> rest[i] == outcomes[i];
      assert forall i: nat :: 0 < i < n ==> FlipsAt(rest, i) == FlipsAt(outcomes, i);
      Grows(Flipped(rest), Flipped(outcomes), n, FlipsAt(outcomes, n));
    } else {
      assert Flipped(outcomes) == {};
    }
  }

  /** The rate is that part of the whole, and nothing of nothing. */
  predicate IsShare(rate: real, part: nat, whole: nat) {
    if whole == 0 then rate == 0.0 else rate * whole as real == part as real
  }

  lemma RateIsShare(part: nat, whole: nat)
    ensures IsShare(Rate(part, whole), part, whole)
  {
  }

  /** The published counts are numbers of runs. */
  lemma PublishedCounts(g: Grouping, tf: TestFlakiness, outcomes: seq<Outcome>)
    requires Describes(g, tf, outcomes)
    ensures tf.totalRuns == |outcomes| && tf.failures == |FailedRuns(outcomes)| && tf.passes == |PassedRuns(outcomes)|
  {
    FailuresAreExact(outcomes);
    PassesAreExact(outcomes);
  }

  /** The rates are shares: of failures in all runs, */
  lemma PublishedFailRate(g: Grouping, tf: TestFlakiness, outcomes: seq<Outcome>)
    requires Describes(g, tf, outcomes)
    ensures IsShare(tf.failRate, |FailedRuns(outcomes)|, |outcomes|)
  {
    FailuresAreExact(outcomes);
    RateIsShare(|FailedRuns(outcomes)|, |outcomes|);
  }

  /** and of flips in all pairs of neighbouring runs. */
  lemma PublishedFlipRate(g: Grouping, tf: TestFlakiness, outcomes: seq<Outcome>)
    requires Describes(g, tf, outcomes)
    ensures if |outcomes| < 2 then tf.flipRate == 0.0 else IsShare(tf.flipRate, |Flipped(outcomes)|, |outcomes| - 1)
  {
    FlipsAreExact(outcomes);
    if |outcomes| >= 2 { RateIsShare(|Flipped(outcomes)|, |outcomes| - 1); }
  }

  /** Each pattern counts the failures with its error, and there are some. */
  lemma PublishedPatterns(g: Grouping, tf: TestFlakiness, outcomes: seq<Outcome>, p: Pattern)
    requires Describes(g, tf, outcomes) && p in tf.patterns
    ensures p.count == |FailedWith(g, outcomes, p.hash)| > 0 && QuotesNewest(g, outcomes, p)
  {
    FailuresWithAreExact(g, outcomes, p.hash);
    assert p.hash in Hashes(tf.patterns);
  }

  // ------------------------------------------------------------------ dates and classes

  /** Run k is the oldest of the newest unbroken run of failures. */
  predicate BrokeAt(outcomes: seq<Outcome>, k: nat) {
    && k < |outcomes| && (forall i :: 0 <= i <= k ==> !outcomes[i].passed)
    && (k + 1 < |outcomes| ==> outcomes[k + 1].passed)
  }

  /** Run k is the newest failure. */
  predicate FailedLastAt(outcomes: seq<Outcome>, k: nat) {
    k < |outcomes| && !outcomes[k].passed && forall i :: 0 <= i < k ==> outcomes[i].passed
  }

  lemma BrokeAtStreak(outcomes: seq<Outcome>, k: nat)
    ensures BrokeAt(outcomes, k) <==> Streak(outcomes) == k + 1
  {
    if BrokeAt(outcomes, k) { StreakIsUnique(outcomes, k + 1); }
  }

  lemma {:induction false} NewestFailureIsExact(outcomes: seq<Outcome>, k: nat)
    ensures FailedLastAt(outcomes, k) ==> NewestFailure(outcomes) == Some(outcomes[k])
    ensures NewestFailure(outcomes).None? <==> forall i :: 0 <= i < |outcomes| ==> outcomes[i].passed
    decreases |outcomes|
  {
    if outcomes != [] && outcomes[0].passed {
      var rest := outcomes[1..];
      assert forall i :: 0 <= i < |rest| ==> rest[i] == outcomes[i + 1];
      NewestFailureIsExact(rest, if k > 0 then k - 1 else 0);
      assert forall i :: 0 < i < |outcomes| ==> rest[i - 1] == outcomes[i];
    }
  }

  /** Broken since the start of the oldest run of the newest unbroken failures, and last failed in the
      newest failure. */
  lemma PublishedDates(g: Grouping, tf: TestFlakiness, outcomes: seq<Outcome>, k: nat)
    requires Describes(g, tf, outcomes)
    ensures BrokeAt(outcomes, k) ==> tf.streak == k + 1 && tf.firstFailedAt == Some(outcomes[k].started)
    ensures outcomes == [] || outcomes[0].passed ==> tf.streak == 0 && tf.firstFailedAt == None
    ensures FailedLastAt(outcomes, k) ==>
              tf.lastFailure == Some(LastFailure(outcomes[k].buildId, outcomes[k].started, outcomes[k].message,
                                                 g.hash(g.normalize(outcomes[k].message))))
    ensures tf.lastFailure == None <==> forall i :: 0 <= i < |outcomes| ==> outcomes[i].passed
  {
    BrokeAtStreak(outcomes, k);
    NewestFailureIsExact(outcomes, k);
  }

  predicate FailsPersistently(outcomes: seq<Outcome>) {
    |outcomes| >= 3 && !outcomes[0].passed && !outcomes[1].passed && !outcomes[2].passed
  }

  /** Not failing three times running, with at least two failures and a pass. */
  predicate IsFlaky(outcomes: seq<Outcome>) {
    !FailsPersistently(outcomes) && |FailedRuns(outcomes)| >= 2 && exists i :: 0 <= i < |outcomes| && outcomes[i].passed
  }

  lemma StreakOfThree(outcomes: seq<Outcome>)
    ensures Streak(outcomes) >= 3 <==> FailsPersistently(outcomes)
  {
    assert Streak(outcomes) < |outcomes| ==> outcomes[Streak(outcomes)].passed;
  }

  lemma PublishedClass(g: Grouping, tf: TestFlakiness, outcomes: seq<Outcome>)
    requires Describes(g, tf, outcomes)
    ensures tf.classification == if outcomes == [] then None
                                 else if FailsPersistently(outcomes) then Some(Persistent)
                                 else if IsFlaky(outcomes) then Some(Flaky) else Some(OneOff)
  {
    FailuresAreExact(outcomes);
    PassesAreExact(outcomes);
    StreakOfThree(outcomes);
    assert (exists i :: 0 <= i < |outcomes| && outcomes[i].passed) <==> PassedRuns(outcomes) != {} by {
      forall i | 0 <= i < |outcomes| && outcomes[i].passed ensures i in PassedRuns(outcomes) {}
    }
  }

  // ------------------------------------------------------------------ the lists

  predicate NamedBefore(a: TestFlakiness, b: TestFlakiness) {
    Less(a.jobId, b.jobId) || (a.jobId == b.jobId && (a.testName == b.testName || Less(a.testName, b.testName)))
  }

  /** Most flips first, then most failures; longest streak first; latest break first; and by name
      where these are equal. */
  lemma ListsAreOrdered(g: Grouping, jobs: Jobs, now: int, r: Report, i: nat, j: nat)
    requires Reports(g, jobs, now, r)
    ensures i < j < |r.mostFlaky| ==>
              var a, b := r.mostFlaky[i], r.mostFlaky[j];
              || a.flipRate > b.flipRate
              || (a.flipRate == b.flipRate && (a.failRate > b.failRate || (a.failRate == b.failRate && NamedBefore(a, b))))
    ensures i < j < |r.persistent| ==>
              var a, b := r.persistent[i], r.persistent[j];
              a.streak > b.streak || (a.streak == b.streak && NamedBefore(a, b))
    ensures i < j < |r.recentlyBroken| ==>
              var a, b := r.recentlyBroken[i], r.recentlyBroken[j];
              && a.firstFailedAt.Some? && b.firstFailedAt.Some?
              && (|| a.firstFailedAt.value > b.firstFailedAt.value
                  || (a.firstFailedAt.value == b.firstFailedAt.value && NamedBefore(a, b)))
  {
    if i < j < |r.mostFlaky| { assert FlakierFirst(r.mostFlaky[i], r.mostFlaky[j]); }
    if i < j < |r.persistent| { assert LongerFirst(r.persistent[i], r.persistent[j]); }
    if i < j < |r.recentlyBroken| {
      var a, b := r.recentlyBroken[i], r.recentlyBroken[j];
      assert a in r.recentlyBroken && b in r.recentlyBroken;
      assert NewerFirst(a, b);
    }
  }

  /** A test's patterns: most failures first, by hash where these are equal, no hash twice. */
  lemma PatternsAreOrdered(g: Grouping, tf: TestFlakiness, outcomes: seq<Outcome>, i: nat, j: nat)
    requires Describes(g, tf, outcomes) && i < j < |tf.patterns|
    ensures var a, b := tf.patterns[i], tf.patterns[j];
            a.count > b.count || (a.count == b.count && Less(a.hash, b.hash))
  {
    assert PatternAtMost(tf.patterns[i], tf.patterns[j]);
    assert PatternHash(tf.patterns[i]) != PatternHash(tf.patterns[j]);
  }

  lemma EntryOf(g: Grouping, jobs: Jobs, all: seq<TestFlakiness>, key: Key, tf: TestFlakiness)
    requires AllEntries(g, jobs, all) && tf in all && KeyOf(tf) == key
    ensures key.jobId in jobs && Describes(g, tf, Outcomes(key.testName, jobs[key.jobId]))
  {
    assert IsEntry(g, jobs, tf);
  }

  /** Some failure makes an entry. */
  lemma FailureIsListed(g: Grouping, jobs: Jobs, all: seq<TestFlakiness>, key: Key, i: nat)
    requires AllEntries(g, jobs, all) && key.jobId in jobs && i in FailedRuns(Outcomes(key.testName, jobs[key.jobId]))
    ensures Lists(all, key)
  {
    FailuresAreExact(Outcomes(key.testName, jobs[key.jobId]));
    assert Failing(jobs, key);
  }

  /** The flaky list names at most 50 tests, all of them flaky, and every flaky test if there are fewer. */
  lemma FlakyListMeaning(g: Grouping, jobs: Jobs, now: int, r: Report, key: Key)
    requires Reports(g, jobs, now, r)
    ensures |r.mostFlaky| <= 50
    ensures Lists(r.mostFlaky, key) ==> key.jobId in jobs && IsFlaky(Outcomes(key.testName, jobs[key.jobId]))
    ensures |r.mostFlaky| < 50 && key.jobId in jobs && IsFlaky(Outcomes(key.testName, jobs[key.jobId])) ==> Lists(r.mostFlaky, key)
  {
    var all :| AllEntries(g, jobs, all) && IsReport(now, all, r);
    if Lists(r.mostFlaky, key) {
      var tf :| tf in r.mostFlaky && KeyOf(tf) == key;
      EntryOf(g, jobs, all, key, tf);
      PublishedClass(g, tf, Outcomes(key.testName, jobs[key.jobId]));
    }
    if |r.mostFlaky| < 50 && key.jobId in jobs && IsFlaky(Outcomes(key.testName, jobs[key.jobId])) {
      var outcomes := Outcomes(key.testName, jobs[key.jobId]);
      var i :| i in FailedRuns(outcomes);
      FailureIsListed(g, jobs, all, key, i);
      var tf :| tf in all && KeyOf(tf) == key;
      EntryOf(g, jobs, all, key, tf);
      PublishedClass(g, tf, outcomes);
    }
  }

  /** The newest unbroken failures began no more than 48 hours ago. */
  ghost predicate BrokeRecently(outcomes: seq<Outcome>, now: int) {
    exists k: nat :: BrokeAt(outcomes, k) && now - outcomes[k].started <= 172_800
  }

  lemma RecentEntry(g: Grouping, tf: TestFlakiness, outcomes: seq<Outcome>, now: int)
    requires Describes(g, tf, outcomes)
    ensures IsRecent(tf, now) <==> BrokeRecently(outcomes, now)
  {
    if Streak(outcomes) > 0 { BrokeAtStreak(outcomes, Streak(outcomes) - 1); }
    forall k: nat ensures BrokeAt(outcomes, k) <==> Streak(outcomes) == k + 1 { BrokeAtStreak(outcomes, k); }
  }

  /** The recent list names exactly the tests that broke recently. */
  lemma RecentListMeaning(g: Grouping, jobs: Jobs, now: int, r: Report, key: Key)
    requires Reports(g, jobs, now, r)
    ensures Lists(r.recentlyBroken, key) <==> key.jobId in jobs && BrokeRecently(Outcomes(key.testName, jobs[key.jobId]), now)
  {
    var all :| AllEntries(g, jobs, all) && IsReport(now, all, r);
    if Lists(r.recentlyBroken, key) {
      var tf :| tf in r.recentlyBroken && KeyOf(tf) == key;
      EntryOf(g, jobs, all, key, tf);
      RecentEntry(g, tf, Outcomes(key.testName, jobs[key.jobId]), now);
    }
    if key.jobId in jobs && BrokeRecently(Outcomes(key.testName, jobs[key.jobId]), now) {
      assert 0 in FailedRuns(Outcomes(key.testName, jobs[key.jobId]));
      FailureIsListed(g, jobs, all, key, 0);
      var tf :| tf in all && KeyOf(tf) == key;
      EntryOf(g, jobs, all, key, tf);
      RecentEntry(g, tf, Outcomes(key.testName, jobs[key.jobId]), now);
    }
  }
}
