/** What a load that drops stale fixes does to the separation of writes: it is the only way past
    it, it never happens among current records, and a concrete run shows it happening. */
module PreviewMigration {
  import opened Wrappers
  import opened Previews
  import opened PreviewFitting
  import opened PreviewProtocol

  // --------------------------------------------------------------- runs that never migrate

  /** A record that loading keeps now and in any status it may reach. */
  predicate Current(p: Preview) {
    p.kind == FixKind && p.status != Generating ==>
      p.verificationVersion == SOURCE_VERIFICATION_VERSION && p.failureId != "" && p.patternHash != ""
  }

  predicate AllCurrent(s: State) {
    forall k :: k in s ==> Current(s[k])
  }

  /** The fix a step stores, if it stores one, is of the current version and has its identity. */
  predicate StoresCurrent(step: Step) {
    match step
    case Stash(_, record) => Current(record)
    case StashIdempotent(_, record) => Current(record)
    case Complete(_, _, _, _, entry) =>
      entry.Some? && entry.value.kind == FixKind ==>
        entry.value.verificationVersion == SOURCE_VERIFICATION_VERSION && entry.value.failureId != "" && entry.value.patternHash != ""
    case _ => true
  }

  lemma OpenedKeepsCurrent(disk: State, now: int)
    requires AllCurrent(disk)
    ensures !Migrates(disk) && AllCurrent(Opened(disk, now))
  {
    forall k | k in Opened(disk, now) ensures Current(Opened(disk, now)[k]) {
      assert Current(disk[k]) && EvictRecord(disk[k], now) == Some(Opened(disk, now)[k]);
    }
  }

  lemma OpKeepsCurrent(step: Step, s: State, now: int)
    requires AllCurrent(s) && StoresCurrent(step)
    ensures AllCurrent(Op(step, s, now).state)
  {
  }

  lemma AfterKeepsCurrent(disk: State, e: Event, limits: Limits)
    requires AllCurrent(disk) && StoresCurrent(e.step)
    ensures AllCurrent(After(disk, e, limits))
  {
    var s := Opened(disk, e.now);
    OpenedKeepsCurrent(disk, e.now);
    OpKeepsCurrent(e.step, s, e.now);
    FittingRemovesOldestPrefix(Op(e.step, s, e.now).state, ProtectedKey(e.step), limits);
  }

  lemma {:induction false} RunStaysCurrent(states: seq<State>, events: seq<Event>, limits: Limits, n: nat)
    requires Run(states, events, limits) && n < |states|
    requires AllCurrent(states[0]) && forall i :: 0 <= i < n ==> StoresCurrent(events[i].step)
    ensures AllCurrent(states[n])
  {
    if n > 0 {
      RunStaysCurrent(states, events, limits, n - 1);
      assert IsStep(states, events, limits, n - 1);
      AfterKeepsCurrent(states[n - 1], events[n - 1], limits);
    }
  }

  /** With no migrating update after the first write, the second one waited for a settlement or
      for the time to live. */
  lemma WritesAreSeparatedInTime(states: seq<State>, events: seq<Event>, limits: Limits,
                                 i: nat, j: nat, k: string, other: string, a: Action)
    requires Run(states, events, limits) && i < j < |events|
    requires BeginsWrite(states[i], events[i], limits, k, a)
    requires BeginsWrite(states[j], events[j], limits, other, a)
    requires forall m :: i < m <= j ==> !Migrates(states[m])
    ensures ReleasedInTime(Marks(states, events, limits, k, a), i, j)
  {
    WritesAreSeparated(states, events, limits, i, j, k, other, a);
    var marks := Marks(states, events, limits, k, a);
    forall m | i < m <= j ensures !marks[m].restarted {
      assert marks[m] == MarkOf(states[m], events[m], limits, k, a);
    }
  }

  /** So it is in every run that starts from current records and stores only current ones. */
  lemma CurrentWritesAreSeparated(states: seq<State>, events: seq<Event>, limits: Limits,
                                  i: nat, j: nat, k: string, other: string, a: Action)
    requires Run(states, events, limits) && i < j < |events|
    requires AllCurrent(states[0]) && forall m :: 0 <= m < |events| ==> StoresCurrent(events[m].step)
    requires BeginsWrite(states[i], events[i], limits, k, a)
    requires BeginsWrite(states[j], events[j], limits, other, a)
    ensures ReleasedInTime(Marks(states, events, limits, k, a), i, j)
  {
    forall m | i < m <= j ensures !Migrates(states[m]) {
      RunStaysCurrent(states, events, limits, m);
      OpenedKeepsCurrent(states[m], 0);
    }
    WritesAreSeparatedInTime(states, events, limits, i, j, k, other, a);
  }

  // --------------------------------------------------------------- a run that writes twice

  const START: int := PREVIEW_TTL + 1

  function StaleFix(status: Status, createdAt: int): Preview {
    Preview("bob", "bob", Some(0), FixKind, "failure", "pattern", "repo", "config",
            SOURCE_VERIFICATION_VERSION - 1, Some(createdAt), status, "", None, "", false,
            None, Some(Draft("fix", "")), None, "", "")
  }

  function Issue(): Preview {
    Preview("bob", "bob", Some(0), IssueKind, "failure", "pattern", "repo", "config", 0, Some(START), Ready, "",
            None, "", false, Some(Draft("issue", "")), None, None, "", "")
  }

  function Attempt(attemptId: string, now: int): Preview {
    Issue().(status := Confirming, leaseExpires := Some(now + 1), attemptId := attemptId, createdAt := Some(now))
  }

  function BeginIssue(k: string, attemptId: string, now: int): Event {
    Event(Begin(k, "bob", attemptId, 1), now, Written)
  }

  /** Nothing is ever too large. */
  function Roomy(): Limits {
    Limits(0, s => 0)
  }

  lemma RoomyCommits(disk: State, now: int, op: OpResult)
    requires op.changed && op.error == None && |op.state| <= MAX_PERSISTED_PREVIEWS
    ensures Committed(disk, now, op, "", Roomy(), Written) == op.state
    ensures CommitError(disk, now, op, "", Roomy(), Written) == None
  {
    assert Roomy().Fits(op.state);
  }

  /** The file before, between and after the two begins; f and k are the keys of fix and issue. */
  function Before(f: string, k: string): State {
    map[f := StaleFix(Unknown, 0), k := Issue()]
  }

  function Between(f: string, k: string): State {
    map[f := StaleFix(Ready, START), k := Attempt("one", START)]
  }

  lemma FirstOpens(f: string, k: string)
    requires f != k
    ensures !Migrates(Before(f, k))
    ensures Opened(Before(f, k), START) == map[f := StaleFix(Ready, START), k := Issue()]
  {
    var disk := Before(f, k);
    assert EvictRecord(disk[f], START) == Some(StaleFix(Ready, START));
    assert EvictRecord(disk[k], START) == Some(Issue());
  }

  lemma FirstBegins(f: string, k: string)
    requires f != k
    ensures var s := map[f := StaleFix(Ready, START), k := Issue()];
            BeginOp(s, k, "bob", "one", 1, START) == OpResult(Between(f, k), true, None)
  {
    var s := map[f := StaleFix(Ready, START), k := Issue()];
    assert !ActiveElsewhere(s, k, s[k]);
    assert s[k := Attempt("one", START)] == Between(f, k);
  }

  lemma FirstWrite(f: string, k: string)
    requires f != k
    ensures BeginsWrite(Before(f, k), BeginIssue(k, "one", START), Roomy(), k, Action(IssueKind, "issue"))
    ensures After(Before(f, k), BeginIssue(k, "one", START), Roomy()) == Between(f, k)
  {
    FirstOpens(f, k);
    FirstBegins(f, k);
    RoomyCommits(Before(f, k), START, OpResult(Between(f, k), true, None));
  }

  lemma SecondOpens(f: string, k: string)
    requires f != k
    ensures Migrates(Between(f, k))
    ensures Opened(Between(f, k), START + 1) == map[k := Attempt("one", START)]
  {
    var disk := Between(f, k);
    assert f in disk && !LoadKeeps(disk[f]);
    assert LoadKeeps(disk[k]);
  }

  lemma SecondBegins(k: string)
    ensures BeginOp(map[k := Attempt("one", START)], k, "bob", "two", 1, START + 1) ==
              OpResult(map[k := Attempt("two", START + 1)], true, None)
  {
    var s := map[k := Attempt("one", START)];
    assert !ActiveElsewhere(s, k, s[k]);
    assert s[k := Attempt("two", START + 1)] == map[k := Attempt("two", START + 1)];
  }

  lemma SecondWrite(f: string, k: string)
    requires f != k
    ensures BeginsWrite(Between(f, k), BeginIssue(k, "two", START + 1), Roomy(), k, Action(IssueKind, "issue"))
    ensures After(Between(f, k), BeginIssue(k, "two", START + 1), Roomy()) == map[k := Attempt("two", START + 1)]
  {
    SecondOpens(f, k);
    SecondBegins(k);
    RoomyCommits(Between(f, k), START + 1, OpResult(map[k := Attempt("two", START + 1)], true, None));
  }

  lemma BeforeIsReachable(f: string, k: string)
    requires f != k
    ensures WellFormed(Before(f, k)) && Exclusive(Before(f, k))
  {
    assert !Active(Before(f, k)[k]);
  }

  lemma TwoStepRun(states: seq<State>, events: seq<Event>, limits: Limits)
    requires |states| == 3 && |events| == 2 && WellFormed(states[0]) && Exclusive(states[0])
    requires IsStep(states, events, limits, 0) && IsStep(states, events, limits, 1)
    ensures Run(states, events, limits)
  {
    forall i | 0 <= i < |events| ensures IsStep(states, events, limits, i) { assert i == 0 || i == 1; }
  }

  lemma SecondIsEarly(f: string, k: string)
    requires f != k
    ensures var mark := MarkOf(Between(f, k), BeginIssue(k, "two", START + 1), Roomy(), k, Action(IssueKind, "issue"));
            !mark.settled && !mark.lapsed && mark.now == START + 1
  {
    SecondOpens(f, k);
  }

  /** A stale fix whose outcome was unknown turns ready while an issue attempt begins; the next
      update drops it, skips eviction, and lets a second write begin on the same issue a moment
      later, with nothing settled and the time to live not over. */
  lemma MigrationMayWriteTwice(f: string, k: string) returns (states: seq<State>, events: seq<Event>)
    requires f != k
    ensures Run(states, events, Roomy()) && |events| == 2 && events[1].now == events[0].now + 1
    ensures BeginsWrite(states[0], events[0], Roomy(), k, Action(IssueKind, "issue"))
    ensures BeginsWrite(states[1], events[1], Roomy(), k, Action(IssueKind, "issue"))
    ensures !ReleasedInTime(Marks(states, events, Roomy(), k, Action(IssueKind, "issue")), 0, 1)
  {
    events := [BeginIssue(k, "one", START), BeginIssue(k, "two", START + 1)];
    states := [Before(f, k), Between(f, k), map[k := Attempt("two", START + 1)]];
    FirstWrite(f, k);
    SecondWrite(f, k);
    BeforeIsReachable(f, k);
    TwoStepRun(states, events, Roomy());
    SecondIsEarly(f, k);
    NotReleased(Marks(states, events, Roomy(), k, Action(IssueKind, "issue")));
  }

  lemma NotReleased(marks: seq<Mark>)
    requires |marks| == 2 && !marks[1].settled && marks[1].now - marks[0].now <= PREVIEW_TTL
    ensures !ReleasedInTime(marks, 0, 1)
  {
  }
}
