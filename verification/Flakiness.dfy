/** Flakiness of one test over a job's runs, newest first. Rates are exact fractions. */
module Flakiness {
  import opened Wrappers
  import opened Order

  datatype TestCase = TestCase(name: string, status: string, fromBuild: bool, message: string, duration: real)

  datatype BuildRun = BuildRun(buildId: string, started: int, cases: seq<TestCase>)

  datatype Outcome = Outcome(passed: bool, message: string, buildId: string, started: int, duration: real)

  // ------------------------------------------------------------------ outcomes of one test

  predicate IsCaseOf(c: TestCase, name: string) {
    !c.fromBuild && c.name == name
  }

  /** A run's first case of a test, if it has one; later duplicates do not count. */
  function FirstCase(cases: seq<TestCase>, name: string): Option<TestCase> {
    if cases == [] then None
    else if IsCaseOf(cases[0], name) then Some(cases[0])
    else FirstCase(cases[1..], name)
  }

  function OutcomeOf(run: BuildRun, c: TestCase): Outcome {
    Outcome(c.status == "passed", c.message, run.buildId, run.started, c.duration)
  }

  function RunOutcome(run: BuildRun, name: string): seq<Outcome> {
    match FirstCase(run.cases, name)
    case None => []
    case Some(c) => if c.status == "skipped" then [] else [OutcomeOf(run, c)]
  }

  /** What each run says of a test, leaving out runs without it and runs that skipped it. */
  function Outcomes(name: string, runs: seq<BuildRun>): seq<Outcome> {
    if runs == [] then [] else Outcomes(name, runs[..|runs| - 1]) + RunOutcome(runs[|runs| - 1], name)
  }

  lemma OutcomesStep(name: string, runs: seq<BuildRun>, k: nat)
    requires k < |runs|
    ensures Outcomes(name, runs[..k + 1]) == Outcomes(name, runs[..k]) + RunOutcome(runs[k], name)
  {
    assert runs[..k + 1][..k] == runs[..k];
  }

  lemma {:induction false} NoCaseBefore(cases: seq<TestCase>, name: string, k: nat)
    requires k <= |cases| && forall i :: 0 <= i < k ==> !IsCaseOf(cases[i], name)
    ensures FirstCase(cases, name) == FirstCase(cases[k..], name)
  {
    if k > 0 {
      NoCaseBefore(cases[1..], name, k - 1);
      assert cases[1..][k - 1..] == cases[k..];
    }
  }

  // What the outcomes say of the runs and their cases.

  /** Case i is what counts for the test in this run: its first one that is no build row. */
  predicate Speaks(run: BuildRun, name: string, i: nat) {
    && i < |run.cases| && !run.cases[i].fromBuild && run.cases[i].name == name
    && forall j :: 0 <= j < i ==> run.cases[j].fromBuild || run.cases[j].name != name
  }

  /** The run has such a case, and did not skip it. */
  predicate Ran(run: BuildRun, name: string) {
    exists i: nat :: i < |run.cases| && Speaks(run, name, i) && run.cases[i].status != "skipped"
  }

  /** The outcome says what case i of the run says. */
  predicate Tells(run: BuildRun, name: string, i: nat, o: Outcome) {
    && Speaks(run, name, i) && (o.passed <==> run.cases[i].status == "passed")
    && o.message == run.cases[i].message && o.duration == run.cases[i].duration
    && o.buildId == run.buildId && o.started == run.started
  }

  ghost predicate TellsOf(run: BuildRun, name: string, o: Outcome) {
    Ran(run, name) && exists i: nat :: Tells(run, name, i, o)
  }

  /** The outcomes are those of the runs at these positions: every run that ran the test, in order. */
  ghost predicate FollowsAt(name: string, runs: seq<BuildRun>, outcomes: seq<Outcome>, at: seq<nat>) {
    && |at| == |outcomes| && (forall m, n :: 0 <= m < n < |at| ==> at[m] < at[n])
    && (forall k :: k in at <==> 0 <= k < |runs| && Ran(runs[k], name))
    && forall n :: 0 <= n < |at| ==> at[n] < |runs| && TellsOf(runs[at[n]], name, outcomes[n])
  }

  ghost predicate Follows(name: string, runs: seq<BuildRun>, outcomes: seq<Outcome>) {
    exists at :: FollowsAt(name, runs, outcomes, at)
  }

  lemma {:induction false} FirstCaseSpeaks(run: BuildRun, name: string, k: nat)
    requires k <= |run.cases| && forall j :: 0 <= j < k ==> !IsCaseOf(run.cases[j], name)
    ensures var c := FirstCase(run.cases[k..], name);
            if c.None? then forall i :: !Speaks(run, name, i)
            else exists i: nat :: i < |run.cases| && Speaks(run, name, i) && run.cases[i] == c.value
    decreases |run.cases| - k
  {
    if k < |run.cases| {
      assert run.cases[k..][0] == run.cases[k] && run.cases[k..][1..] == run.cases[k + 1..];
      if IsCaseOf(run.cases[k], name) { assert Speaks(run, name, k); } else { FirstCaseSpeaks(run, name, k + 1); }
    }
  }

  lemma OneSpeaker(run: BuildRun, name: string, i: nat, j: nat)
    requires Speaks(run, name, i) && Speaks(run, name, j)
    ensures i == j
  {
  }

  lemma RunOutcomeTells(run: BuildRun, name: string)
    ensures if Ran(run, name) then |RunOutcome(run, name)| == 1 && TellsOf(run, name, RunOutcome(run, name)[0])
            else RunOutcome(run, name) == []
  {
    FirstCaseSpeaks(run, name, 0);
    assert run.cases[0..] == run.cases;
    if FirstCase(run.cases, name).Some? {
      var i: nat :| i < |run.cases| && Speaks(run, name, i) && run.cases[i] == FirstCase(run.cases, name).value;
      if Ran(run, name) {
        var j: nat :| j < |run.cases| && Speaks(run, name, j) && run.cases[j].status != "skipped";
        OneSpeaker(run, name, i, j);
        assert Tells(run, name, i, RunOutcome(run, name)[0]);
      }
    }
  }

  lemma FollowsLonger(name: string, runs: seq<BuildRun>, outcomes: seq<Outcome>, at: seq<nat>)
    requires runs != [] && FollowsAt(name, runs[..|runs| - 1], outcomes, at)
    ensures !Ran(runs[|runs| - 1], name) ==> FollowsAt(name, runs, outcomes, at)
    ensures Ran(runs[|runs| - 1], name) ==>
              forall o :: TellsOf(runs[|runs| - 1], name, o) ==> FollowsAt(name, runs, outcomes + [o], at + [|runs| - 1])
  {
    var rest, last := runs[..|runs| - 1], |runs| - 1;
    forall n | 0 <= n < |at| ensures at[n] < last && rest[at[n]] == runs[at[n]] { assert at[n] in at; }
    assert forall k :: k in at + [last] <==> k in at || k == last;
    assert forall k :: 0 <= k < last ==> rest[k] == runs[k];
  }

  /** The outcomes of a test are one for each run that ran it, in order, and say what its case says. */
  lemma {:induction false} OutcomesFollowCases(name: string, runs: seq<BuildRun>) returns (at: seq<nat>)
    ensures FollowsAt(name, runs, Outcomes(name, runs), at)
    decreases |runs|
  {
    at := [];
    if runs != [] {
      var last := |runs| - 1;
      at := OutcomesFollowCases(name, runs[..last]);
      RunOutcomeTells(runs[last], name);
      FollowsLonger(name, runs, Outcomes(name, runs[..last]), at);
      if Ran(runs[last], name) { at := at + [last]; }
    }
  }

  /** outcomesForTest: look for one test in every run. */
  method OutcomesForTest(name: string, runs: seq<BuildRun>) returns (outcomes: seq<Outcome>)
    ensures outcomes == Outcomes(name, runs) && Follows(name, runs, outcomes)
  {
    outcomes := [];
    for k := 0 to |runs|
      invariant outcomes == Outcomes(name, runs[..k])
    {
      OutcomesStep(name, runs, k);
      var run := runs[k];
      ghost var before := outcomes;
      ghost var found := false;
      for i := 0 to |run.cases|
        invariant !found && outcomes == before && forall j :: 0 <= j < i ==> !IsCaseOf(run.cases[j], name)
      {
        var c := run.cases[i];
        if c.fromBuild { continue; }
        if c.name != name { continue; }
        NoCaseBefore(run.cases, name, i);
        if c.status != "skipped" { outcomes := outcomes + [OutcomeOf(run, c)]; }
        found := true;
        break;
      }
      if !found { NoCaseBefore(run.cases, name, |run.cases|); }
    }
    assert runs[..|runs|] == runs;
    ghost var at := OutcomesFollowCases(name, runs);
  }

  // ------------------------------------------------------------------ outcomes of every test at once

  function At(out: map<string, seq<Outcome>>, name: string): seq<Outcome> {
    if name in out then out[name] else []
  }

  /** The outcomes collected from whole runs. */
  ghost predicate Collects(out: map<string, seq<Outcome>>, runs: seq<BuildRun>) {
    (forall name :: At(out, name) == Outcomes(name, runs)) && forall name :: name in out ==> out[name] != []
  }

  /** Halfway through one run: tests among its first k cases have their outcome, the others not yet. */
  ghost predicate CollectsPart(out: map<string, seq<Outcome>>, runs: seq<BuildRun>, run: BuildRun, seen: set<string>, k: nat)
    requires k <= |run.cases|
  {
    && (forall name :: name in out ==> out[name] != [])
    && SeenUpTo(run, seen, k)
    && (forall name :: At(out, name) == Outcomes(name, runs) + if name in seen then RunOutcome(run, name) else [])
  }

  lemma CollectCase(out: map<string, seq<Outcome>>, runs: seq<BuildRun>, run: BuildRun, seen: set<string>, k: nat)
    requires k < |run.cases| && CollectsPart(out, runs, run, seen, k)
    ensures var c := run.cases[k];
            if c.fromBuild || c.name in seen then CollectsPart(out, runs, run, seen, k + 1)
            else if c.status == "skipped" then CollectsPart(out, runs, run, seen + {c.name}, k + 1)
            else CollectsPart(out[c.name := At(out, c.name) + [OutcomeOf(run, c)]], runs, run, seen + {c.name}, k + 1)
  {
    var c := run.cases[k];
    if !c.fromBuild && c.name !in seen { FirstSeen(run, seen, k); }
    SeenGrows(run, seen, k);
  }

  ghost predicate SeenUpTo(run: BuildRun, seen: set<string>, k: nat)
    requires k <= |run.cases|
  {
    forall name :: name in seen <==> exists i :: 0 <= i < k && IsCaseOf(run.cases[i], name)
  }

  lemma SeenGrows(run: BuildRun, seen: set<string>, k: nat)
    requires k < |run.cases| && SeenUpTo(run, seen, k)
    ensures SeenUpTo(run, if run.cases[k].fromBuild then seen else seen + {run.cases[k].name}, k + 1)
    ensures run.cases[k].name in seen ==> seen + {run.cases[k].name} == seen
  {
  }

  /** A case not seen before is the run's first of that name. */
  lemma FirstSeen(run: BuildRun, seen: set<string>, k: nat)
    requires k < |run.cases| && SeenUpTo(run, seen, k) && !run.cases[k].fromBuild && run.cases[k].name !in seen
    ensures RunOutcome(run, run.cases[k].name) == if run.cases[k].status == "skipped" then [] else [OutcomeOf(run, run.cases[k])]
  {
    NoCaseBefore(run.cases, run.cases[k].name, k);
  }

  lemma RunCollected(out: map<string, seq<Outcome>>, runs: seq<BuildRun>, seen: set<string>, k: nat)
    requires k < |runs| && CollectsPart(out, runs[..k], runs[k], seen, |runs[k].cases|)
    ensures Collects(out, runs[..k + 1])
  {
    forall name ensures At(out, name) == Outcomes(name, runs[..k + 1]) {
      OutcomesStep(name, runs, k);
      if name !in seen { NoCaseBefore(runs[k].cases, name, |runs[k].cases|); }
    }
  }

  /** collectTestOutcomes: one pass over every case gives each test what a scan for it alone gives. */
  method CollectTestOutcomes(runs: seq<BuildRun>) returns (out: map<string, seq<Outcome>>)
    ensures Collects(out, runs) && forall name :: Follows(name, runs, At(out, name))
  {
    out := map[];
    for k := 0 to |runs|
      invariant Collects(out, runs[..k])
    {
      var run := runs[k];
      var seen: set<string> := {};
      for i := 0 to |run.cases|
        invariant CollectsPart(out, runs[..k], run, seen, i)
      {
        CollectCase(out, runs[..k], run, seen, i);
        var c := run.cases[i];
        if c.fromBuild { continue; }
        if c.name in seen { continue; }
        seen := seen + {c.name};
        if c.status == "skipped" { continue; }
        out := out[c.name := At(out, c.name) + [OutcomeOf(run, c)]];
      }
      RunCollected(out, runs, seen, k);
    }
    assert runs[..|runs|] == runs;
    forall name ensures Follows(name, runs, At(out, name)) { var at := OutcomesFollowCases(name, runs); }
  }

  // ------------------------------------------------------------------ counting

  function Failures(outcomes: seq<Outcome>): nat {
    if outcomes == [] then 0 else Failures(outcomes[..|outcomes| - 1]) + if outcomes[|outcomes| - 1].passed then 0 else 1
  }

  function Passes(outcomes: seq<Outcome>): nat {
    if outcomes == [] then 0 else Passes(outcomes[..|outcomes| - 1]) + if outcomes[|outcomes| - 1].passed then 1 else 0
  }

  /** How often neighbouring runs disagree. */
  function Flips(outcomes: seq<Outcome>): nat {
    if |outcomes| < 2 then 0
    else Flips(outcomes[..|outcomes| - 1]) + if outcomes[|outcomes| - 1].passed != outcomes[|outcomes| - 2].passed then 1 else 0
  }

  /** The length of the newest unbroken run of failures. */
  function Streak(outcomes: seq<Outcome>): (r: nat)
    ensures r <= |outcomes| && (forall i :: 0 <= i < r ==> !outcomes[i].passed) && (r < |outcomes| ==> outcomes[r].passed)
  {
    if outcomes == [] || outcomes[0].passed then 0 else 1 + Streak(outcomes[1..])
  }

  lemma {:induction false} EveryRunCounts(outcomes: seq<Outcome>)
    ensures Passes(outcomes) + Failures(outcomes) == |outcomes|
    decreases |outcomes|
  {
    if outcomes != [] { EveryRunCounts(outcomes[..|outcomes| - 1]); }
  }

  lemma {:induction false} NoFlipMeansUniform(outcomes: seq<Outcome>, i: nat)
    requires Flips(outcomes) == 0 && i < |outcomes|
    ensures outcomes[i].passed == outcomes[0].passed
    decreases |outcomes|
  {
    if |outcomes| > 1 && i > 0 {
      var rest := outcomes[..|outcomes| - 1];
      if i < |rest| { NoFlipMeansUniform(rest, i); } else { NoFlipMeansUniform(rest, i - 1); }
    }
  }

  lemma {:induction false} UniformCounts(outcomes: seq<Outcome>, passed: bool)
    requires forall i :: 0 <= i < |outcomes| ==> outcomes[i].passed == passed
    ensures if passed then Failures(outcomes) == 0 else Passes(outcomes) == 0
    decreases |outcomes|
  {
    if outcomes != [] { UniformCounts(outcomes[..|outcomes| - 1], passed); }
  }

  /** A test that both passed and failed changed its mind at least once. */
  lemma MixedMeansFlip(outcomes: seq<Outcome>)
    requires Passes(outcomes) > 0 && Failures(outcomes) > 0
    ensures Flips(outcomes) >= 1
  {
    if Flips(outcomes) == 0 {
      forall i | 0 <= i < |outcomes| ensures outcomes[i].passed == outcomes[0].passed { NoFlipMeansUniform(outcomes, i); }
      UniformCounts(outcomes, |outcomes| > 0 && outcomes[0].passed);
    }
  }

  // ------------------------------------------------------------------ classification

  datatype Classification = OneOff | Flaky | Persistent

  const PERSISTENT_THRESHOLD: nat := 3

  function Classify(outcomes: seq<Outcome>, threshold: nat): Classification
    requires threshold > 0
  {
    if Streak(outcomes) >= threshold then Persistent
    else if Failures(outcomes) >= 2 && Passes(outcomes) > 0 then Flaky
    else OneOff
  }

  /** classifyOutcomes, but for the error hash. */
  method ClassifyOutcomes(outcomes: seq<Outcome>, limit: int) returns (c: Classification, consecutiveFailures: nat)
    ensures c == Classify(outcomes, if limit <= 0 then PERSISTENT_THRESHOLD else limit) && consecutiveFailures == Streak(outcomes)
  {
    var threshold := if limit <= 0 then PERSISTENT_THRESHOLD else limit;
    if outcomes == [] { return OneOff, 0; }
    consecutiveFailures := CountStreak(outcomes);
    if consecutiveFailures >= threshold { return Persistent, consecutiveFailures; }
    var failCount := 0;
    for k := 0 to |outcomes|
      invariant failCount == Failures(outcomes[..k])
    {
      assert outcomes[..k + 1][..k] == outcomes[..k];
      if !outcomes[k].passed { failCount := failCount + 1; }
    }
    assert outcomes[..|outcomes|] == outcomes;
    EveryRunCounts(outcomes);
    if failCount == 1 { return OneOff, consecutiveFailures; }
    if failCount > 0 && failCount < |outcomes| { return Flaky, consecutiveFailures; }
    c := OneOff;
  }

  method CountStreak(outcomes: seq<Outcome>) returns (streak: nat)
    ensures streak == Streak(outcomes)
  {
    streak := 0;
    while streak < |outcomes| && !outcomes[streak].passed
      invariant streak <= |outcomes| && forall i :: 0 <= i < streak ==> !outcomes[i].passed
    {
      streak := streak + 1;
    }
    StreakIsUnique(outcomes, streak);
  }

  lemma {:induction false} StreakIsUnique(outcomes: seq<Outcome>, n: nat)
    requires n <= |outcomes| && (forall i :: 0 <= i < n ==> !outcomes[i].passed) && (n < |outcomes| ==> outcomes[n].passed)
    ensures n == Streak(outcomes)
  {
    if n > 0 { StreakIsUnique(outcomes[1..], n - 1); }
  }

  /** Flaky tests failed more than once, passed at least once, are not failing three times running,
      and flipped. */
  lemma FlakyMeaning(outcomes: seq<Outcome>)
    requires Classify(outcomes, PERSISTENT_THRESHOLD) == Flaky
    ensures Flips(outcomes) >= 1 && Streak(outcomes) < PERSISTENT_THRESHOLD && Failures(outcomes) >= 2 && Passes(outcomes) >= 1
  {
    MixedMeansFlip(outcomes);
  }

  // ------------------------------------------------------------------ error patterns

  datatype Pattern = Pattern(message: string, hash: string, count: nat, example: string)

  /** Error messages brought into comparable form, and the hash that stands for that form. */
  datatype Grouping = Grouping(normalize: string -> string, hash: string -> string)

  function HashOf(g: Grouping, o: Outcome): string {
    g.hash(g.normalize(o.message))
  }

  function FailuresWith(g: Grouping, outcomes: seq<Outcome>, hash: string): nat {
    if outcomes == [] then 0
    else
      var last := outcomes[|outcomes| - 1];
      FailuresWith(g, outcomes[..|outcomes| - 1], hash) + if !last.passed && HashOf(g, last) == hash then 1 else 0
  }

  /** Run i is the newest failure with this error, and the pattern quotes its message. */
  ghost predicate QuotesAt(g: Grouping, outcomes: seq<Outcome>, p: Pattern, i: nat) {
    && i < |outcomes| && !outcomes[i].passed && HashOf(g, outcomes[i]) == p.hash
    && p.example == outcomes[i].message && p.message == g.normalize(p.example)
    && forall j :: 0 <= j < i ==> outcomes[j].passed || HashOf(g, outcomes[j]) != p.hash
  }

  ghost predicate QuotesNewest(g: Grouping, outcomes: seq<Outcome>, p: Pattern) {
    exists i: nat :: QuotesAt(g, outcomes, p, i)
  }

  /** One entry per error hash, counting exactly the failures with that hash and quoting the newest. */
  ghost predicate Groups(g: Grouping, outcomes: seq<Outcome>, patterns: map<string, Pattern>) {
    && (forall hash :: hash in patterns <==> FailuresWith(g, outcomes, hash) > 0)
    && (forall hash :: hash in patterns ==> patterns[hash].hash == hash && patterns[hash].count == FailuresWith(g, outcomes, hash))
    && (forall hash :: hash in patterns ==> QuotesNewest(g, outcomes, patterns[hash]))
  }

  lemma {:induction false} NoFailuresWith(g: Grouping, outcomes: seq<Outcome>, hash: string)
    ensures FailuresWith(g, outcomes, hash) == 0 <==> forall i :: 0 <= i < |outcomes| ==> outcomes[i].passed || HashOf(g, outcomes[i]) != hash
    decreases |outcomes|
  {
    if outcomes != [] {
      var rest := outcomes[..|outcomes| - 1];
      NoFailuresWith(g, rest, hash);
      assert forall i :: 0 <= i < |rest| ==> rest[i] == outcomes[i];
    }
  }

  lemma QuotesMore(g: Grouping, outcomes: seq<Outcome>, k: nat, p: Pattern)
    requires k < |outcomes| && QuotesNewest(g, outcomes[..k], p)
    ensures forall count: nat :: QuotesNewest(g, outcomes[..k + 1], p.(count := count))
  {
    var i: nat :| QuotesAt(g, outcomes[..k], p, i);
    forall count: nat ensures QuotesNewest(g, outcomes[..k + 1], p.(count := count)) {
      assert QuotesAt(g, outcomes[..k + 1], p.(count := count), i);
    }
  }

  lemma QuotesFirst(g: Grouping, outcomes: seq<Outcome>, k: nat, p: Pattern)
    requires k < |outcomes| && !outcomes[k].passed && p.hash == HashOf(g, outcomes[k])
    requires p.example == outcomes[k].message && p.message == g.normalize(p.example)
    requires FailuresWith(g, outcomes[..k], p.hash) == 0
    ensures QuotesNewest(g, outcomes[..k + 1], p)
  {
    NoFailuresWith(g, outcomes[..k], p.hash);
    assert forall j :: 0 <= j < k ==> outcomes[..k][j] == outcomes[j];
    assert QuotesAt(g, outcomes[..k + 1], p, k);
  }

  function Total(patterns: seq<Pattern>): nat {
    if patterns == [] then 0 else patterns[0].count + Total(patterns[1..])
  }

  function Hashes(patterns: seq<Pattern>): set<string> {
    set p | p in patterns :: p.hash
  }

  function PatternHash(p: Pattern): string {
    p.hash
  }

  function FailuresAmong(g: Grouping, outcomes: seq<Outcome>, hashes: set<string>): nat {
    if outcomes == [] then 0
    else
      var last := outcomes[|outcomes| - 1];
      FailuresAmong(g, outcomes[..|outcomes| - 1], hashes) + if !last.passed && HashOf(g, last) in hashes then 1 else 0
  }

  lemma {:induction false} OneMoreHash(g: Grouping, outcomes: seq<Outcome>, hashes: set<string>, hash: string)
    requires hash !in hashes
    ensures FailuresAmong(g, outcomes, hashes + {hash}) == FailuresAmong(g, outcomes, hashes) + FailuresWith(g, outcomes, hash)
    decreases |outcomes|
  {
    if outcomes != [] { OneMoreHash(g, outcomes[..|outcomes| - 1], hashes, hash); }
  }

  lemma {:induction false} NoHashes(g: Grouping, outcomes: seq<Outcome>)
    ensures FailuresAmong(g, outcomes, {}) == 0
    decreases |outcomes|
  {
    if outcomes != [] { NoHashes(g, outcomes[..|outcomes| - 1]); }
  }

  lemma {:induction false} AllHashes(g: Grouping, outcomes: seq<Outcome>, hashes: set<string>)
    requires forall hash :: FailuresWith(g, outcomes, hash) > 0 ==> hash in hashes
    ensures FailuresAmong(g, outcomes, hashes) == Failures(outcomes)
    decreases |outcomes|
  {
    if outcomes != [] {
      var rest, last := outcomes[..|outcomes| - 1], outcomes[|outcomes| - 1];
      assert !last.passed ==> FailuresWith(g, outcomes, HashOf(g, last)) > 0;
      forall hash | FailuresWith(g, rest, hash) > 0 ensures hash in hashes { assert FailuresWith(g, outcomes, hash) > 0; }
      AllHashes(g, rest, hashes);
    }
  }

  lemma {:induction false} TotalIsAmong(g: Grouping, outcomes: seq<Outcome>, patterns: seq<Pattern>)
    requires UniqueKeys(PatternHash, patterns) && forall p :: p in patterns ==> p.count == FailuresWith(g, outcomes, p.hash)
    ensures Total(patterns) == FailuresAmong(g, outcomes, Hashes(patterns))
    decreases |patterns|
  {
    if patterns == [] {
      NoHashes(g, outcomes);
      assert Hashes(patterns) == {};
    } else {
      var first, rest := patterns[0], patterns[1..];
      assert patterns == [first] + rest;
      forall i, j | 0 <= i < j < |rest| ensures PatternHash(rest[i]) != PatternHash(rest[j]) {
        assert PatternHash(patterns[i + 1]) != PatternHash(patterns[j + 1]);
      }
      TotalIsAmong(g, outcomes, rest);
      forall p | p in rest ensures p.hash != first.hash {
        var i :| 0 <= i < |rest| && rest[i] == p;
        assert PatternHash(patterns[0]) != PatternHash(patterns[i + 1]);
      }
      assert Hashes(patterns) == Hashes(rest) + {first.hash};
      OneMoreHash(g, outcomes, Hashes(rest), first.hash);
    }
  }

  predicate PatternAtMost(a: Pattern, b: Pattern) {
    if a.count != b.count then a.count > b.count else AtMost(a.hash, b.hash)
  }

  /** A published list of patterns: most frequent first, one per hash, counting every failure once. */
  ghost predicate IsPatternList(g: Grouping, outcomes: seq<Outcome>, patterns: seq<Pattern>) {
    && Sorted(PatternAtMost, patterns) && UniqueKeys(PatternHash, patterns) && Total(patterns) == Failures(outcomes)
    && (forall hash :: hash in Hashes(patterns) <==> FailuresWith(g, outcomes, hash) > 0)
    && (forall p :: p in patterns ==> p.count == FailuresWith(g, outcomes, p.hash))
    && EachQuotes(g, outcomes, patterns)
  }

  /** Each pattern quotes the newest failure it counts. */
  ghost predicate EachQuotes(g: Grouping, outcomes: seq<Outcome>, patterns: seq<Pattern>) {
    forall p :: p in patterns ==> QuotesNewest(g, outcomes, p)
  }

  /** The grouping and sorting of failures in computeTestFlakiness. */
  method FindPatterns(g: Grouping, outcomes: seq<Outcome>) returns (list: seq<Pattern>)
    ensures IsPatternList(g, outcomes, list)
  {
    var patterns := GroupFailures(g, outcomes);
    var found: seq<Pattern>, rest := [], patterns.Keys;
    while rest != {}
      invariant rest <= patterns.Keys && UniqueKeys(PatternHash, found)
      invariant forall p :: p in found <==> p.hash in patterns && p.hash !in rest && p == patterns[p.hash]
      decreases rest
    {
      var hash :| hash in rest;
      rest, found := rest - {hash}, found + [patterns[hash]];
    }
    PatternOrder();
    SortSorts(PatternAtMost, found);
    list := Sort(PatternAtMost, found);
    MembersOfPermutation(found, list);
    UniqueKeysPermute(PatternHash, found, list);
    TotalIsAmong(g, outcomes, list);
    forall hash ensures hash in Hashes(list) <==> FailuresWith(g, outcomes, hash) > 0 {
      if hash in patterns { assert patterns[hash] in found; }
    }
    AllHashes(g, outcomes, Hashes(list));
  }

  lemma SameGroups(g: Grouping, outcomes: seq<Outcome>, k: nat, patterns: map<string, Pattern>)
    requires k < |outcomes| && outcomes[k].passed && Groups(g, outcomes[..k], patterns)
    ensures Groups(g, outcomes[..k + 1], patterns)
  {
    assert outcomes[..k + 1][..k] == outcomes[..k];
    forall hash | hash in patterns ensures QuotesNewest(g, outcomes[..k + 1], patterns[hash]) {
      QuotesMore(g, outcomes, k, patterns[hash]);
      assert patterns[hash].(count := patterns[hash].count) == patterns[hash];
    }
  }

  method GroupFailures(g: Grouping, outcomes: seq<Outcome>) returns (patterns: map<string, Pattern>)
    ensures Groups(g, outcomes, patterns)
  {
    patterns := map[];
    for k := 0 to |outcomes|
      invariant Groups(g, outcomes[..k], patterns)
    {
      assert outcomes[..k + 1][..k] == outcomes[..k];
      forall hash | hash in patterns ensures forall count: nat :: QuotesNewest(g, outcomes[..k + 1], patterns[hash].(count := count)) {
        QuotesMore(g, outcomes, k, patterns[hash]);
      }
      if outcomes[k].passed {
        SameGroups(g, outcomes, k, patterns);
        continue;
      }
      var normalized := g.normalize(outcomes[k].message);
      var hash := g.hash(normalized);
      if hash in patterns {
        patterns := patterns[hash := patterns[hash].(count := patterns[hash].count + 1)];
      } else {
        QuotesFirst(g, outcomes, k, Pattern(normalized, hash, 1, outcomes[k].message));
        patterns := patterns[hash := Pattern(normalized, hash, 1, outcomes[k].message)];
      }
    }
    assert outcomes[..|outcomes|] == outcomes;
  }

  lemma PatternOrder()
    ensures Preorder(PatternAtMost)
  {
    AtMostIsPreorder();
  }
}
