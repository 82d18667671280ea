/** The flakiness of one test as published, and the report over every job. */
module FlakinessReport {
  import opened Wrappers
  import opened Order
  import opened Flakiness

  datatype LastFailure = LastFailure(buildId: string, at: int, message: string, hash: string)

  datatype TestFlakiness = TestFlakiness(
    testName: string, jobId: string, totalRuns: nat, passes: nat, failures: nat, failRate: real, flipRate: real, streak: nat,
    classification: Option<Classification>, firstFailedAt: Option<int>, lastFailure: Option<LastFailure>, patterns: seq<Pattern>,
    history: seq<Outcome>)

  /** The newest failure. */
  function NewestFailure(outcomes: seq<Outcome>): Option<Outcome> {
    if outcomes == [] then None else if !outcomes[0].passed then Some(outcomes[0]) else NewestFailure(outcomes[1..])
  }

  function Rate(part: nat, whole: nat): real {
    if whole == 0 then 0.0 else part as real / whole as real
  }

  /** Everything published about a test, in terms of its outcomes. */
  ghost predicate Describes(g: Grouping, tf: TestFlakiness, outcomes: seq<Outcome>) {
    && tf.totalRuns == |outcomes| && tf.passes == Passes(outcomes) && tf.failures == Failures(outcomes)
    && tf.failRate == Rate(Failures(outcomes), |outcomes|)
    && tf.flipRate == (if |outcomes| < 2 then 0.0 else Rate(Flips(outcomes), |outcomes| - 1))
    && tf.streak == Streak(outcomes)
    && tf.classification == (if outcomes == [] then None else Some(Classify(outcomes, PERSISTENT_THRESHOLD)))
    && tf.firstFailedAt == (if Streak(outcomes) == 0 then None else Some(outcomes[Streak(outcomes) - 1].started))
    && tf.lastFailure == (match NewestFailure(outcomes)
                          case None => None
                          case Some(o) => Some(LastFailure(o.buildId, o.started, o.message, HashOf(g, o))))
    && IsPatternList(g, outcomes, tf.patterns) && tf.history == outcomes
  }

  lemma {:induction false} NoFailureBefore(outcomes: seq<Outcome>, k: nat)
    requires k <= |outcomes| && forall i :: 0 <= i < k ==> outcomes[i].passed
    ensures NewestFailure(outcomes) == NewestFailure(outcomes[k..])
  {
    if k > 0 {
      NoFailureBefore(outcomes[1..], k - 1);
      assert outcomes[1..][k - 1..] == outcomes[k..];
    }
  }

  method FindNewestFailure(outcomes: seq<Outcome>) returns (found: Option<Outcome>)
    ensures found == NewestFailure(outcomes)
  {
    for k := 0 to |outcomes|
      invariant forall i :: 0 <= i < k ==> outcomes[i].passed
    {
      if outcomes[k].passed { continue; }
      NoFailureBefore(outcomes, k);
      return Some(outcomes[k]);
    }
    NoFailureBefore(outcomes, |outcomes|);
    found := None;
  }

  method CountPasses(outcomes: seq<Outcome>) returns (passes: nat, failures: nat)
    ensures passes == Passes(outcomes) && failures == Failures(outcomes)
  {
    passes, failures := 0, 0;
    for k := 0 to |outcomes|
      invariant passes == Passes(outcomes[..k]) && failures == Failures(outcomes[..k])
    {
      assert outcomes[..k + 1][..k] == outcomes[..k];
      if outcomes[k].passed { passes := passes + 1; } else { failures := failures + 1; }
    }
    assert outcomes[..|outcomes|] == outcomes;
  }

  method CountFlips(outcomes: seq<Outcome>) returns (flips: nat)
    requires |outcomes| >= 2
    ensures flips == Flips(outcomes)
  {
    flips := 0;
    for k := 1 to |outcomes|
      invariant flips == Flips(outcomes[..k])
    {
      assert outcomes[..k + 1][..k] == outcomes[..k];
      if outcomes[k].passed != outcomes[k - 1].passed { flips := flips + 1; }
    }
    assert outcomes[..|outcomes|] == outcomes;
  }

  /** computeTestFlakiness. */
  method ComputeTestFlakiness(g: Grouping, testName: string, jobId: string, outcomes: seq<Outcome>) returns (tf: TestFlakiness)
    ensures Describes(g, tf, outcomes) && tf.testName == testName && tf.jobId == jobId
  {
    var patterns := FindPatterns(g, outcomes);
    var passes, failures := CountPasses(outcomes);
    tf := TestFlakiness(testName, jobId, |outcomes|, passes, failures, Rate(failures, |outcomes|), 0.0, 0, None, None, None, patterns, outcomes);
    if outcomes == [] { return; }
    if |outcomes| >= 2 {
      var flips := CountFlips(outcomes);
      tf := tf.(flipRate := Rate(flips, |outcomes| - 1));
    }
    var classification, streak := ClassifyOutcomes(outcomes, 3);
    tf := tf.(streak := streak, classification := Some(classification));
    if streak > 0 { tf := tf.(firstFailedAt := Some(outcomes[streak - 1].started)); }
    var newest := FindNewestFailure(outcomes);
    if newest.Some? {
      var o := newest.value;
      tf := tf.(lastFailure := Some(LastFailure(o.buildId, o.started, o.message, HashOf(g, o))));
    }
  }

  /** What a reader can rely on in a published test. */
  lemma PublishedCountsAgree(g: Grouping, tf: TestFlakiness, outcomes: seq<Outcome>)
    requires Describes(g, tf, outcomes)
    ensures tf.passes + tf.failures == tf.totalRuns && Total(tf.patterns) == tf.failures
    ensures tf.classification == Some(Flaky) ==> tf.flipRate > 0.0 && tf.streak < 3
    ensures tf.classification == Some(Persistent) <==> tf.streak >= 3
  {
    EveryRunCounts(outcomes);
    if tf.classification == Some(Flaky) { FlakyMeaning(outcomes); }
  }

  // ------------------------------------------------------------------ every test of every job

  type Jobs = map<string, seq<BuildRun>>

  datatype Key = Key(jobId: string, testName: string)

  function KeyOf(tf: TestFlakiness): Key {
    Key(tf.jobId, tf.testName)
  }

  /** A failing test of a job, described by that job's runs. */
  ghost predicate IsEntry(g: Grouping, jobs: Jobs, tf: TestFlakiness) {
    tf.jobId in jobs && Describes(g, tf, Outcomes(tf.testName, jobs[tf.jobId])) && tf.failures > 0
  }

  predicate Failing(jobs: Jobs, key: Key) {
    key.jobId in jobs && Failures(Outcomes(key.testName, jobs[key.jobId])) > 0
  }

  ghost predicate Lists(all: seq<TestFlakiness>, key: Key) {
    exists tf :: tf in all && KeyOf(tf) == key
  }

  /** Among some keys, one entry for each failing test. */
  ghost predicate Complete(all: seq<TestFlakiness>, done: set<Key>, failing: Key -> bool) {
    && UniqueKeys(KeyOf, all) && (forall tf :: tf in all ==> KeyOf(tf) in done)
    && forall key :: key in done && failing(key) ==> Lists(all, key)
  }

  lemma AddEntry(all: seq<TestFlakiness>, done: set<Key>, failing: Key -> bool, tf: TestFlakiness)
    requires Complete(all, done, failing) && KeyOf(tf) !in done
    ensures Complete(all + [tf], done + {KeyOf(tf)}, failing)
    ensures !failing(KeyOf(tf)) ==> Complete(all, done + {KeyOf(tf)}, failing)
  {
    var longer := all + [tf];
    forall i, j | 0 <= i < j < |longer| ensures KeyOf(longer[i]) != KeyOf(longer[j]) {
      if j == |all| { assert all[i] in all; }
    }
    forall key | key in done + {KeyOf(tf)} && failing(key) ensures Lists(longer, key) {
      if key == KeyOf(tf) {
        assert tf in longer;
      } else {
        var other :| other in all && KeyOf(other) == key;
        assert other in longer;
      }
    }
  }

  ghost predicate AllDescribed(g: Grouping, jobs: Jobs, all: seq<TestFlakiness>) {
    forall tf :: tf in all ==> IsEntry(g, jobs, tf)
  }

  lemma OneMoreDescribed(g: Grouping, jobs: Jobs, all: seq<TestFlakiness>, tf: TestFlakiness)
    requires AllDescribed(g, jobs, all) && IsEntry(g, jobs, tf)
    ensures AllDescribed(g, jobs, all + [tf])
  {
  }

  function JobKeys(jobId: string, names: seq<string>): set<Key> {
    set name | name in names :: Key(jobId, name)
  }

  lemma OneMoreName(jobId: string, names: seq<string>, k: nat)
    requires k < |names| && Distinct(names)
    ensures JobKeys(jobId, names[..k + 1]) == JobKeys(jobId, names[..k]) + {Key(jobId, names[k])}
    ensures Key(jobId, names[k]) !in JobKeys(jobId, names[..k])
  {
    assert names[..k + 1] == names[..k] + [names[k]] && names[k] !in names[..k];
  }

  /** The tests of one job. */
  method CollectJob(g: Grouping, jobs: Jobs, jobId: string, all: seq<TestFlakiness>, ghost done: set<Key>, ghost failing: Key -> bool)
    returns (longer: seq<TestFlakiness>, ghost names: seq<string>)
    requires jobId in jobs && AllDescribed(g, jobs, all) && Complete(all, done, failing)
    requires forall key :: key in done ==> key.jobId != jobId
    requires forall key :: failing(key) <==> Failing(jobs, key)
    ensures AllDescribed(g, jobs, longer) && Complete(longer, done + JobKeys(jobId, names), failing)
    ensures forall name :: failing(Key(jobId, name)) ==> name in names
  {
    var outcomes := CollectTestOutcomes(jobs[jobId]);
    var sorted := SortNames(outcomes.Keys);
    names := sorted;
    SortedNamesMeaning(outcomes.Keys);
    SortedNamesMembers(outcomes.Keys);
    CollectedNames(jobs, jobId, outcomes);
    longer := all;
    for k := 0 to |sorted|
      invariant AllDescribed(g, jobs, longer) && Complete(longer, done + JobKeys(jobId, sorted[..k]), failing)
    {
      assert sorted[k] in sorted;
      OneMoreName(jobId, sorted, k);
      var tf := ComputeEntry(g, jobs, jobId, sorted[k], outcomes);
      AddEntry(longer, done + JobKeys(jobId, sorted[..k]), failing, tf);
      assert done + JobKeys(jobId, sorted[..k + 1]) == done + JobKeys(jobId, sorted[..k]) + {KeyOf(tf)};
      if tf.failures > 0 {
        OneMoreDescribed(g, jobs, longer, tf);
        longer := longer + [tf];
      }
    }
    assert sorted[..|sorted|] == sorted;
  }

  lemma CollectedNames(jobs: Jobs, jobId: string, outcomes: map<string, seq<Outcome>>)
    requires jobId in jobs && Collects(outcomes, jobs[jobId])
    ensures forall name :: Failing(jobs, Key(jobId, name)) ==> name in outcomes
  {
    forall name | Failing(jobs, Key(jobId, name)) ensures name in outcomes {
      assert At(outcomes, name) == Outcomes(name, jobs[jobId]);
    }
  }

  method ComputeEntry(g: Grouping, jobs: Jobs, jobId: string, name: string, outcomes: map<string, seq<Outcome>>)
    returns (tf: TestFlakiness)
    requires jobId in jobs && Collects(outcomes, jobs[jobId]) && name in outcomes
    ensures KeyOf(tf) == Key(jobId, name) && (tf.failures > 0 <==> Failing(jobs, KeyOf(tf)))
    ensures tf.failures > 0 ==> IsEntry(g, jobs, tf)
  {
    assert At(outcomes, name) == Outcomes(name, jobs[jobId]);
    tf := ComputeTestFlakiness(g, name, jobId, outcomes[name]);
  }

  /** One entry for every failing test of every job, and nothing else. */
  ghost predicate AllEntries(g: Grouping, jobs: Jobs, all: seq<TestFlakiness>) {
    UniqueKeys(KeyOf, all) && AllDescribed(g, jobs, all) && forall key :: Failing(jobs, key) ==> Lists(all, key)
  }

  method CollectAll(g: Grouping, jobs: Jobs) returns (all: seq<TestFlakiness>)
    ensures AllEntries(g, jobs, all)
  {
    ghost var failing := (key: Key) => Failing(jobs, key);
    var jobIds := SortNames(jobs.Keys);
    SortedNamesMeaning(jobs.Keys);
    SortedNamesMembers(jobs.Keys);
    all := [];
    ghost var done: set<Key> := {};
    for k := 0 to |jobIds|
      invariant AllDescribed(g, jobs, all) && Complete(all, done, failing) && Spans(done, jobIds[..k], failing)
    {
      assert jobIds[k] in jobIds;
      assert jobIds[k] !in jobIds[..k];
      ghost var names;
      all, names := CollectJob(g, jobs, jobIds[k], all, done, failing);
      OneMoreJob(done, jobIds, k, failing, names);
      done := done + JobKeys(jobIds[k], names);
    }
    assert jobIds[..|jobIds|] == jobIds;
    EveryFailingTestIsListed(jobs, all, done, jobIds, failing);
  }

  /** The keys dealt with: only of these jobs, and all their failing tests. */
  ghost predicate Spans(done: set<Key>, jobIds: seq<string>, failing: Key -> bool) {
    && (forall key :: key in done ==> key.jobId in jobIds)
    && forall key: Key :: key.jobId in jobIds && failing(key) ==> key in done
  }

  lemma OneMoreJob(done: set<Key>, jobIds: seq<string>, k: nat, failing: Key -> bool, names: seq<string>)
    requires k < |jobIds| && Spans(done, jobIds[..k], failing)
    requires forall name :: failing(Key(jobIds[k], name)) ==> name in names
    ensures Spans(done + JobKeys(jobIds[k], names), jobIds[..k + 1], failing)
  {
    assert jobIds[..k + 1] == jobIds[..k] + [jobIds[k]];
    forall key: Key | key.jobId == jobIds[k] && failing(key) ensures key in JobKeys(jobIds[k], names) {
      assert key == Key(jobIds[k], key.testName);
    }
  }

  lemma EveryFailingTestIsListed(jobs: Jobs, all: seq<TestFlakiness>, done: set<Key>, jobIds: seq<string>, failing: Key -> bool)
    requires Complete(all, done, failing) && Spans(done, jobIds, failing)
    requires (forall key :: failing(key) <==> Failing(jobs, key)) && forall jobId :: jobId in jobs ==> jobId in jobIds
    ensures forall key :: Failing(jobs, key) ==> Lists(all, key)
  {
    forall key | Failing(jobs, key) ensures Lists(all, key) { assert failing(key); }
  }

  // ------------------------------------------------------------------ the lists of the report

  const MAX_FLAKY: nat := 50
  const RECENT: int := 48 * 3600

  predicate NameAtMost(a: TestFlakiness, b: TestFlakiness) {
    if a.jobId != b.jobId then Less(a.jobId, b.jobId) else AtMost(a.testName, b.testName)
  }

  predicate FlakierFirst(a: TestFlakiness, b: TestFlakiness) {
    if a.flipRate != b.flipRate then a.flipRate > b.flipRate
    else if a.failRate != b.failRate then a.failRate > b.failRate
    else NameAtMost(a, b)
  }

  predicate LongerFirst(a: TestFlakiness, b: TestFlakiness) {
    if a.streak != b.streak then a.streak > b.streak else NameAtMost(a, b)
  }

  predicate NewerFirst(a: TestFlakiness, b: TestFlakiness) {
    var x, y := if a.firstFailedAt.Some? then a.firstFailedAt.value else 0, if b.firstFailedAt.Some? then b.firstFailedAt.value else 0;
    if x != y then x > y else NameAtMost(a, b)
  }

  lemma NameOrder()
    ensures Preorder(NameAtMost)
  {
    AtMostIsPreorder();
    forall a, b ensures NameAtMost(a, b) || NameAtMost(b, a) { LessIsStrict(a.jobId, b.jobId); }
    forall a, b, c | NameAtMost(a, b) && NameAtMost(b, c) ensures NameAtMost(a, c) {
      LessIsStrict(a.jobId, b.jobId);
      LessIsStrict(b.jobId, c.jobId);
      if Less(a.jobId, b.jobId) && Less(b.jobId, c.jobId) { LessIsTransitive(a.jobId, b.jobId, c.jobId); }
    }
  }

  lemma ReportOrders()
    ensures Preorder(FlakierFirst) && Preorder(LongerFirst) && Preorder(NewerFirst)
  {
    NameOrder();
    assert forall a, b :: FlakierFirst(a, b) || FlakierFirst(b, a) by {
      forall a, b ensures FlakierFirst(a, b) || FlakierFirst(b, a) { assert NameAtMost(a, b) || NameAtMost(b, a); }
    }
    forall a, b ensures LongerFirst(a, b) || LongerFirst(b, a) { assert NameAtMost(a, b) || NameAtMost(b, a); }
    forall a, b ensures NewerFirst(a, b) || NewerFirst(b, a) { assert NameAtMost(a, b) || NameAtMost(b, a); }
  }

  /** An entry has a key of its own among any selected before it. */
  lemma OneMoreKey(all: seq<TestFlakiness>, k: nat, selected: seq<TestFlakiness>)
    requires k < |all| && UniqueKeys(KeyOf, all) && UniqueKeys(KeyOf, selected)
    requires forall tf :: tf in selected ==> tf in all[..k]
    ensures UniqueKeys(KeyOf, selected + [all[k]])
  {
    var longer := selected + [all[k]];
    forall i, j | 0 <= i < j < |longer| ensures KeyOf(longer[i]) != KeyOf(longer[j]) {
      if j == |selected| {
        assert selected[i] in selected;
        var m :| 0 <= m < k && all[m] == selected[i];
        assert KeyOf(all[m]) != KeyOf(all[k]);
      }
    }
  }

  method Select(all: seq<TestFlakiness>, keep: TestFlakiness -> bool) returns (selected: seq<TestFlakiness>)
    requires UniqueKeys(KeyOf, all)
    ensures UniqueKeys(KeyOf, selected) && forall tf :: tf in selected <==> tf in all && keep(tf)
  {
    selected := [];
    for k := 0 to |all|
      invariant UniqueKeys(KeyOf, selected) && forall tf :: tf in selected <==> tf in all[..k] && keep(tf)
    {
      assert all[..k + 1] == all[..k] + [all[k]];
      OneMoreKey(all, k, selected);
      if keep(all[k]) { selected := selected + [all[k]]; }
    }
    assert all[..|all|] == all;
  }

  predicate IsRecent(tf: TestFlakiness, now: int) {
    tf.firstFailedAt.Some? && tf.firstFailedAt.value >= now - RECENT
  }

  datatype Report = Report(mostFlaky: seq<TestFlakiness>, persistent: seq<TestFlakiness>, recentlyBroken: seq<TestFlakiness>)

  /** The 50 flakiest of the flaky tests, each once. */
  ghost predicate IsMostFlaky(all: seq<TestFlakiness>, list: seq<TestFlakiness>) {
    && UniqueKeys(KeyOf, list) && Sorted(FlakierFirst, list) && |list| <= MAX_FLAKY
    && (forall tf :: tf in list ==> tf in all && tf.classification == Some(Flaky))
    && (forall tf, kept :: tf in all && tf.classification == Some(Flaky) && tf !in list && kept in list ==>
          |list| == MAX_FLAKY && FlakierFirst(kept, tf))
    && (|list| < MAX_FLAKY ==> forall tf :: tf in all && tf.classification == Some(Flaky) ==> tf in list)
  }

  /** Every test failing three times running, once, longest streak first. */
  ghost predicate IsPersistentList(all: seq<TestFlakiness>, list: seq<TestFlakiness>) {
    UniqueKeys(KeyOf, list) && Sorted(LongerFirst, list) && forall tf :: tf in list <==> tf in all && tf.streak >= 3
  }

  /** Every test whose newest streak of failures began in the last 48 hours, once, newest first. */
  ghost predicate IsRecentList(now: int, all: seq<TestFlakiness>, list: seq<TestFlakiness>) {
    UniqueKeys(KeyOf, list) && Sorted(NewerFirst, list) && forall tf :: tf in list <==> tf in all && IsRecent(tf, now)
  }

  ghost predicate IsReport(now: int, all: seq<TestFlakiness>, r: Report) {
    IsMostFlaky(all, r.mostFlaky) && IsPersistentList(all, r.persistent) && IsRecentList(now, all, r.recentlyBroken)
  }

  /** The report's lists are drawn from one entry for every failing test. */
  ghost predicate Reports(g: Grouping, jobs: Jobs, now: int, r: Report) {
    exists all :: AllEntries(g, jobs, all) && IsReport(now, all, r)
  }

  /** ComputeFlakinessReport, its lists of tests. */
  method ComputeReport(g: Grouping, jobs: Jobs, now: int) returns (r: Report)
    ensures Reports(g, jobs, now, r)
  {
    var all := CollectAll(g, jobs);
    r := ListTests(all, now);
  }

  method ListTests(all: seq<TestFlakiness>, now: int) returns (r: Report)
    requires UniqueKeys(KeyOf, all)
    ensures IsReport(now, all, r)
  {
    var mostFlaky := MostFlaky(all);
    var persistent := PersistentTests(all);
    var recent := RecentlyBroken(all, now);
    r := Report(mostFlaky, persistent, recent);
  }

  method PersistentTests(all: seq<TestFlakiness>) returns (list: seq<TestFlakiness>)
    requires UniqueKeys(KeyOf, all)
    ensures IsPersistentList(all, list)
  {
    var persistent := Select(all, (tf: TestFlakiness) => tf.streak >= 3);
    ReportOrders();
    SortSorts(LongerFirst, persistent);
    list := Sort(LongerFirst, persistent);
    MembersOfPermutation(persistent, list);
    UniqueKeysPermute(KeyOf, persistent, list);
  }

  method RecentlyBroken(all: seq<TestFlakiness>, now: int) returns (list: seq<TestFlakiness>)
    requires UniqueKeys(KeyOf, all)
    ensures IsRecentList(now, all, list)
  {
    var recent := Select(all, (tf: TestFlakiness) => IsRecent(tf, now));
    ReportOrders();
    SortSorts(NewerFirst, recent);
    list := Sort(NewerFirst, recent);
    MembersOfPermutation(recent, list);
    UniqueKeysPermute(KeyOf, recent, list);
  }

  method MostFlaky(all: seq<TestFlakiness>) returns (list: seq<TestFlakiness>)
    requires UniqueKeys(KeyOf, all)
    ensures IsMostFlaky(all, list)
  {
    var flaky := Select(all, (tf: TestFlakiness) => tf.classification == Some(Flaky));
    ReportOrders();
    SortSorts(FlakierFirst, flaky);
    var sorted := Sort(FlakierFirst, flaky);
    MembersOfPermutation(flaky, sorted);
    UniqueKeysPermute(KeyOf, flaky, sorted);
    list := if |sorted| > MAX_FLAKY then sorted[..MAX_FLAKY] else sorted;
    FirstOnesAreFirst(sorted, list);
  }

  lemma FirstOnesAreFirst(sorted: seq<TestFlakiness>, list: seq<TestFlakiness>)
    requires Sorted(FlakierFirst, sorted) && |list| <= |sorted| && list == sorted[..|list|]
    ensures forall tf, kept :: tf in sorted && tf !in list && kept in list ==> FlakierFirst(kept, tf)
  {
    forall tf, kept | tf in sorted && tf !in list && kept in list ensures FlakierFirst(kept, tf) {
      assert forall x :: 0 <= x < |list| ==> sorted[x] in list;
      var i :| 0 <= i < |sorted| && sorted[i] == tf;
      var j :| 0 <= j < |list| && list[j] == kept;
      assert sorted[j] == kept;
    }
  }

  /** No test is on both the most-flaky and the persistent list. */
  lemma ListsAreDisjoint(g: Grouping, jobs: Jobs, now: int, r: Report, a: TestFlakiness, b: TestFlakiness)
    requires Reports(g, jobs, now, r) && a in r.mostFlaky && b in r.persistent
    ensures KeyOf(a) != KeyOf(b)
  {
    var all :| AllEntries(g, jobs, all) && IsReport(now, all, r);
    assert IsEntry(g, jobs, a) && IsEntry(g, jobs, b);
    PublishedCountsAgree(g, a, Outcomes(a.testName, jobs[a.jobId]));
  }
}
