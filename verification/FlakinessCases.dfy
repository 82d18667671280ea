/** What the flakiness report says of a test, in terms of the test's cases in the runs. */
module FlakinessCases {
  import opened Wrappers
  import opened Order
  import opened Flakiness
  import opened FlakinessReport

  /** Run k ran the test and its case did not pass. */
  predicate FailedAt(runs: seq<BuildRun>, name: string, k: nat) {
    k < |runs| && Ran(runs[k], name) && forall i: nat :: i < |runs[k].cases| && Speaks(runs[k], name, i) ==> runs[k].cases[i].status != "passed"
  }

  /** Runs a, b and c are the newest three that ran the test, and in each of them it failed. */
  predicate NewestThreeFailed(runs: seq<BuildRun>, name: string, a: nat, b: nat, c: nat) {
    && a < b < c && FailedAt(runs, name, a) && FailedAt(runs, name, b) && FailedAt(runs, name, c)
    && forall k :: 0 <= k < c && k != a && k != b ==> !Ran(runs[k], name)
  }

  ghost predicate FailedThreeTimes(runs: seq<BuildRun>, name: string) {
    exists a: nat, b: nat, c: nat :: NewestThreeFailed(runs, name, a, b, c)
  }

  lemma FailedOutcome(run: BuildRun, name: string, o: Outcome)
    requires TellsOf(run, name, o)
    ensures !o.passed <==> forall i: nat :: i < |run.cases| && Speaks(run, name, i) ==> run.cases[i].status != "passed"
  {
    var i: nat :| Tells(run, name, i, o);
    forall j: nat | j < |run.cases| && Speaks(run, name, j) ensures j == i { OneSpeaker(run, name, i, j); }
  }

  lemma FailedAtPosition(name: string, runs: seq<BuildRun>, outcomes: seq<Outcome>, at: seq<nat>, n: nat)
    requires FollowsAt(name, runs, outcomes, at) && n < |at|
    ensures !outcomes[n].passed <==> FailedAt(runs, name, at[n])
  {
    FailedOutcome(runs[at[n]], name, outcomes[n]);
    assert at[n] in at;
  }

  /** A streak of three is three failing cases in the newest three runs of the test. */
  lemma StreakMeansCases(name: string, runs: seq<BuildRun>)
    ensures Streak(Outcomes(name, runs)) >= 3 <==> FailedThreeTimes(runs, name)
  {
    var outcomes := Outcomes(name, runs);
    var at := OutcomesFollowCases(name, runs);
    if Streak(outcomes) >= 3 {
      FailedAtPosition(name, runs, outcomes, at, 0);
      FailedAtPosition(name, runs, outcomes, at, 1);
      FailedAtPosition(name, runs, outcomes, at, 2);
      forall k | 0 <= k < at[2] && k != at[0] && k != at[1] ensures !Ran(runs[k], name) {
        assert forall n :: 2 < n < |at| ==> at[2] < at[n];
        assert k !in at;
      }
      assert NewestThreeFailed(runs, name, at[0], at[1], at[2]);
    }
    if FailedThreeTimes(runs, name) {
      var a: nat, b: nat, c: nat :| NewestThreeFailed(runs, name, a, b, c);
      ThreeAreFirst(name, runs, outcomes, at, a, b, c);
      FailedAtPosition(name, runs, outcomes, at, 0);
      FailedAtPosition(name, runs, outcomes, at, 1);
      FailedAtPosition(name, runs, outcomes, at, 2);
    }
  }

  lemma ThreeAreFirst(name: string, runs: seq<BuildRun>, outcomes: seq<Outcome>, at: seq<nat>, a: nat, b: nat, c: nat)
    requires FollowsAt(name, runs, outcomes, at) && NewestThreeFailed(runs, name, a, b, c)
    ensures |at| >= 3 && at[0] == a && at[1] == b && at[2] == c
  {
    var i :| 0 <= i < |at| && at[i] == a;
    var j :| 0 <= j < |at| && at[j] == b;
    var k :| 0 <= k < |at| && at[k] == c;
    assert i < j < k;
    forall n | 0 <= n < k ensures at[n] == a || at[n] == b { assert at[n] < at[k] && at[n] in at; }
    assert at[k - 2] < at[k - 1];
    assert at[k - 2] == a && at[k - 1] == b;
    assert i == k - 2 && j == k - 1;
    assert at[0] <= at[i];
    assert at[0] == a;
    assert i == 0 && j == 1 && k == 2;
  }

  /** The persistent list names exactly the tests whose newest three runs all failed. */
  lemma PersistentMeansThreeFailedCases(g: Grouping, jobs: Jobs, now: int, r: Report, key: Key)
    requires Reports(g, jobs, now, r)
    ensures Lists(r.persistent, key) <==> key.jobId in jobs && FailedThreeTimes(jobs[key.jobId], key.testName)
  {
    var all :| AllEntries(g, jobs, all) && IsReport(now, all, r);
    if Lists(r.persistent, key) {
      var tf :| tf in r.persistent && KeyOf(tf) == key;
      assert IsEntry(g, jobs, tf);
      StreakMeansCases(key.testName, jobs[key.jobId]);
    }
    if key.jobId in jobs && FailedThreeTimes(jobs[key.jobId], key.testName) {
      StreakMeansCases(key.testName, jobs[key.jobId]);
      StreakIsFailures(Outcomes(key.testName, jobs[key.jobId]));
      assert Failing(jobs, key);
      var tf :| tf in all && KeyOf(tf) == key;
      assert IsEntry(g, jobs, tf);
    }
  }

  lemma StreakIsFailures(outcomes: seq<Outcome>)
    ensures Streak(outcomes) > 0 ==> Failures(outcomes) > 0
  {
    if Streak(outcomes) > 0 { FailureCounts(outcomes, 0); }
  }

  lemma {:induction false} FailureCounts(outcomes: seq<Outcome>, i: nat)
    requires i < |outcomes| && !outcomes[i].passed
    ensures Failures(outcomes) > 0
    decreases |outcomes|
  {
    if i < |outcomes| - 1 { FailureCounts(outcomes[..|outcomes| - 1], i); }
  }
}
