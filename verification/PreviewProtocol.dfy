/** Safety of the preview store over whole runs: any interleaving of its locked updates by any
    number of servers, with any clock readings and any failures of the state file. */
module PreviewProtocol {
  import opened Wrappers
  import opened Previews
  import opened PreviewFitting

  datatype Step =
    | Stash(key: string, record: Preview)
    | StashIdempotent(key: string, record: Preview)
    | Reserve(key: string, owner: string, requestHash: string, generationHash: string, lease: int)
    | Complete(key: string, owner: string, requestHash: string, generationHash: string, entry: Option<Entry>)
    | CancelIdempotent(key: string, owner: string, requestHash: string, generationHash: string)
    | Revoke(key: string, owner: string)
    | Begin(key: string, owner: string, attemptId: string, lease: int)
    | Finish(key: string, owner: string, attemptId: string, outcome: Outcome)
    | Take(key: string, owner: string)
    | Discard(key: string, owner: string, attemptId: string)

  /** One locked update: the operation, the clock it read and the fate of its write. */
  datatype Event = Event(step: Step, now: int, write: WriteOutcome)

  function Op(step: Step, s: State, now: int): OpResult {
    match step
    case Stash(key, record) => StashOp(s, key, record, now)
    case StashIdempotent(key, record) => StashIdempotentOp(s, key, record, now)
    case Reserve(key, owner, rh, gh, lease) => ReserveOp(s, key, owner, rh, gh, lease, now)
    case Complete(key, owner, rh, gh, entry) => CompleteOp(s, key, owner, rh, gh, entry, now)
    case CancelIdempotent(key, owner, rh, gh) => CancelIdempotentOp(s, key, owner, rh, gh)
    case Revoke(key, owner) => RevokeOp(s, key, owner)
    case Begin(key, owner, attempt, lease) => BeginOp(s, key, owner, attempt, lease, now)
    case Finish(key, owner, attempt, outcome) => FinishOp(s, key, owner, attempt, outcome, now)
    case Take(key, owner) => TakeOp(s, key, owner)
    case Discard(key, owner, attempt) => DiscardOp(s, key, owner, attempt)
  }

  /** The key each operation protects while the state is fitted; updates without one pass "". */
  function ProtectedKey(step: Step): string {
    match step
    case Stash(key, _) => key
    case StashIdempotent(key, _) => key
    case Reserve(key, _, _, _, _) => key
    case Complete(key, _, _, _, _) => key
    case Revoke(key, _) => key
    case _ => ""
  }

  ghost function After(disk: State, e: Event, limits: Limits): State {
    Committed(disk, e.now, Op(e.step, Opened(disk, e.now), e.now), ProtectedKey(e.step), limits, e.write)
  }

  ghost function ErrorOf(disk: State, e: Event, limits: Limits): Option<PreviewError> {
    CommitError(disk, e.now, Op(e.step, Opened(disk, e.now), e.now), ProtectedKey(e.step), limits, e.write)
  }

  predicate IsFreshRecord(p: Preview) {
    p.status == Ready && p.attemptId == ""
  }

  /** What callers supply: a fresh random token and attempt id, and a newly persisted record. */
  predicate ValidStep(disk: State, step: Step) {
    match step
    case Stash(key, record) => key !in disk && IsFreshRecord(record)
    case StashIdempotent(_, record) => IsFreshRecord(record)
    case Begin(_, _, attempt, _) => attempt != ""
    case Finish(_, _, attempt, _) => attempt != ""
    case Discard(_, _, attempt) => attempt != ""
    case _ => true
  }

  predicate WellFormedRecord(p: Preview) {
    && (Active(p) ==> p.createdAt.Some?)
    && (p.status == Confirming <==> p.attemptId != "")
    && (p.status == Confirmed ==> p.resultUrl != "")
  }

  predicate WellFormed(s: State) {
    forall k :: k in s ==> WellFormedRecord(s[k])
  }

  // --------------------------------------------------------------- one writer per action

  /** The external action a record would perform: its kind and nonblank draft key. */
  datatype Action = Action(kind: Kind, key: string)

  function ActionOf(p: Preview): Option<Action> {
    match p.kind
    case IssueKind => if p.issue.Some? && p.issue.value.key != "" then Some(Action(IssueKind, p.issue.value.key)) else None
    case FixKind => if p.fix.Some? && p.fix.value.key != "" then Some(Action(FixKind, p.fix.value.key)) else None
    case OtherKind(_) => None
  }

  lemma SameActionIsEqualAction(left: Preview, right: Preview)
    ensures SamePreviewAction(left, right) <==> ActionOf(left).Some? && ActionOf(left) == ActionOf(right)
  {
    if left.kind == right.kind { assert left.kind.IssueKind? || left.kind.FixKind? || left.kind.OtherKind?; }
  }

  /** At most one record per action is confirming or unknown. */
  predicate Exclusive(s: State) {
    forall k1, k2 :: k1 in s && k2 in s && k1 != k2 && Active(s[k1]) && Active(s[k2]) ==>
      !SamePreviewAction(s[k1], s[k2])
  }

  lemma OpenedKeepsInvariants(disk: State, now: int)
    requires WellFormed(disk)
    ensures WellFormed(Opened(disk, now))
    ensures Exclusive(disk) ==> Exclusive(Opened(disk, now))
  {
    var s := Opened(disk, now);
    forall k | k in s ensures k in disk && WellFormedRecord(s[k]) && (Active(s[k]) ==> Active(disk[k]))
                           && ActionOf(s[k]) == ActionOf(disk[k])
    {
      assert if Migrates(disk) then s[k] == disk[k] else EvictRecord(disk[k], now) == Some(s[k]);
    }
    if Exclusive(disk) {
      forall k1, k2 | k1 in s && k2 in s && k1 != k2 && Active(s[k1]) && Active(s[k2])
        ensures !SamePreviewAction(s[k1], s[k2])
      {
        SameActionIsEqualAction(s[k1], s[k2]);
        SameActionIsEqualAction(disk[k1], disk[k2]);
      }
    }
  }

  predicate LeasesAreLive(s: State, now: int) {
    forall k :: k in s && s[k].status in {Generating, Confirming} ==> LeaseHeld(s[k], now)
  }

  /** An operation meets a lease that has run out, and so the expired-lease branches of begin and
      reserve, exactly when one is on disk and loading dropped a stale fix. */
  lemma OpenedLeasesAreLive(disk: State, now: int)
    ensures LeasesAreLive(Opened(disk, now), now) <==> !Migrates(disk) || LeasesAreLive(disk, now)
  {
    var s := Opened(disk, now);
    if Migrates(disk) {
      forall k | k in disk && disk[k].status in {Generating, Confirming} ensures k in s && s[k] == disk[k] {}
    } else {
      forall k | k in s && s[k].status in {Generating, Confirming} ensures LeaseHeld(s[k], now) {
        assert EvictRecord(disk[k], now) == Some(s[k]);
      }
    }
  }

  lemma OpKeepsWellFormed(step: Step, s: State, now: int)
    requires WellFormed(s)
    requires step.Stash? ==> IsFreshRecord(step.record)
    requires step.StashIdempotent? ==> IsFreshRecord(step.record)
    requires step.Begin? ==> step.attemptId != ""
    ensures WellFormed(Op(step, s, now).state)
  {
  }

  /** Only begin makes a record active, and it refuses while another record of the action is. */
  lemma OpKeepsExclusive(step: Step, s: State, now: int)
    requires Exclusive(s)
    requires step.Stash? ==> IsFreshRecord(step.record)
    requires step.StashIdempotent? ==> IsFreshRecord(step.record)
    ensures Exclusive(Op(step, s, now).state)
  {
    var r := Op(step, s, now).state;
    forall k1, k2 | k1 in r && k2 in r && k1 != k2 && Active(r[k1]) && Active(r[k2])
      ensures !SamePreviewAction(r[k1], r[k2])
    {
      ActiveAfterOp(step, s, now, k1);
      ActiveAfterOp(step, s, now, k2);
      SameActionIsEqualAction(r[k1], r[k2]);
      SameActionIsEqualAction(s[k1], s[k2]);
      SameActionIsEqualAction(s[k2], s[k1]);
    }
  }

  lemma ActiveAfterOp(step: Step, s: State, now: int, k: string)
    requires step.Stash? ==> IsFreshRecord(step.record)
    requires step.StashIdempotent? ==> IsFreshRecord(step.record)
    requires k in Op(step, s, now).state && Active(Op(step, s, now).state[k])
    ensures k in s && ActionOf(Op(step, s, now).state[k]) == ActionOf(s[k])
    ensures Active(s[k]) || (step.Begin? && step.key == k && !ActiveElsewhere(s, k, s[k]))
  {
    if step.Complete? && Op(step, s, now).changed { assert k != step.key; }
  }

  lemma AfterKeepsInvariants(disk: State, e: Event, limits: Limits)
    requires WellFormed(disk) && Exclusive(disk) && ValidStep(disk, e.step)
    ensures WellFormed(After(disk, e, limits)) && Exclusive(After(disk, e, limits))
  {
    var s := Opened(disk, e.now);
    OpenedKeepsInvariants(disk, e.now);
    OpKeepsWellFormed(e.step, s, e.now);
    OpKeepsExclusive(e.step, s, e.now);
    FittingRemovesOldestPrefix(Op(e.step, s, e.now).state, ProtectedKey(e.step), limits);
  }

  // --------------------------------------------------------------- runs

  /** A run of locked updates: states[i + 1] is what event i leaves on disk. */
  ghost predicate Run(states: seq<State>, events: seq<Event>, limits: Limits) {
    && |states| == |events| + 1
    && WellFormed(states[0]) && Exclusive(states[0])
    && forall i :: 0 <= i < |events| ==> IsStep(states, events, limits, i)
  }

  ghost predicate IsStep(states: seq<State>, events: seq<Event>, limits: Limits, i: int)
    requires |states| == |events| + 1 && 0 <= i < |events|
  {
    ValidStep(states[i], events[i].step) && states[i + 1] == After(states[i], events[i], limits)
  }

  /** In every reachable state at most one record per action is confirming or unknown. */
  lemma {:induction false} RunStaysExclusive(states: seq<State>, events: seq<Event>, limits: Limits, n: nat)
    requires Run(states, events, limits) && n < |states|
    ensures WellFormed(states[n]) && Exclusive(states[n])
  {
    if n > 0 {
      RunStaysExclusive(states, events, limits, n - 1);
      assert IsStep(states, events, limits, n - 1);
      AfterKeepsInvariants(states[n - 1], events[n - 1], limits);
    }
  }

  // --------------------------------------------------------------- separation of writes

  /** An attempt to perform action a through record k may have reached GitHub and is unsettled. */
  predicate Held(s: State, k: string, a: Action) {
    k in s && Active(s[k]) && ActionOf(s[k]) == Some(a)
  }

  /** Since when the outcome of record k has been unknown; None while the write is under lease. */
  function UnknownSince(p: Preview): Option<int> {
    if p.status == Unknown || (p.status == Confirming && p.reconciling) then p.createdAt else None
  }

  /** Begin returned success to its caller, in write mode rather than reconcile mode. */
  ghost predicate BeginsWrite(disk: State, e: Event, limits: Limits, k: string, a: Action) {
    && BeginWrites(e.step, Opened(disk, e.now), e.now, k, a)
    && ErrorOf(disk, e, limits) == None
  }

  predicate BeginWrites(step: Step, s: State, now: int, k: string, a: Action) {
    && step.Begin? && step.key == k
    && k in s && ActionOf(s[k]) == Some(a) && s[k].status != Unknown
    && Op(step, s, now).changed
  }

  /** The step finishes record k with a result, discards it or takes it. */
  predicate Settles(step: Step, s: State, now: int, k: string) {
    && step.key == k
    && (step.Finish? || step.Discard? || step.Take?)
    && Op(step, s, now).changed
    && (step.Finish? ==> step.outcome.Url? && step.outcome.url != "")
  }

  /** Record k was finished with a result, discarded or taken, and the disk shows it. */
  ghost predicate Settled(disk: State, e: Event, limits: Limits, k: string) {
    && Settles(e.step, Opened(disk, e.now), e.now, k)
    && (k !in After(disk, e, limits) || !Active(After(disk, e, limits)[k]))
  }

  /** The update evicted, and found the outcome unknown for longer than the time to live. */
  predicate Lapsed(disk: State, e: Event, k: string) {
    && !Migrates(disk) && k in disk && disk[k].status == Unknown && disk[k].createdAt.Some?
    && e.now - disk[k].createdAt.value > PREVIEW_TTL
  }

  lemma BeginOpHolds(step: Step, s: State, now: int, k: string, a: Action)
    requires BeginWrites(step, s, now, k, a)
    ensures Held(Op(step, s, now).state, k, a) && UnknownSince(Op(step, s, now).state[k]) == None
    ensures Op(step, s, now).error == None
  {
  }

  lemma WriteBeginHolds(disk: State, e: Event, limits: Limits, k: string, a: Action)
    requires BeginsWrite(disk, e, limits, k, a)
    ensures Held(After(disk, e, limits), k, a) && UnknownSince(After(disk, e, limits)[k]) == None
  {
    var r := Op(e.step, Opened(disk, e.now), e.now).state;
    BeginOpHolds(e.step, Opened(disk, e.now), e.now, k, a);
    FittedKeeps(r, ProtectedKey(e.step), limits, k);
  }

  lemma FittedKeeps(s: State, protectedKey: string, limits: Limits, k: string)
    requires k in s && Active(s[k])
    ensures k in Fitted(s, protectedKey, limits) && Fitted(s, protectedKey, limits)[k] == s[k]
  {
    FittingRemovesOldestPrefix(s, protectedKey, limits);
    assert !Removable(s, protectedKey, k);
  }

  /** Begin finds the record confirming under a lease that has run out, its draft intact, its
      caller the owner, and no other record of the action active. */
  predicate Restarts(step: Step, s: State, now: int, k: string) {
    && step.Begin? && step.key == k
    && k in s && s[k].status == Confirming && !LeaseHeld(s[k], now)
    && s[k].owner == step.owner && Restore(s[k]).Success? && !ActiveElsewhere(s, k, s[k])
  }

  lemma WriteInHeldState(step: Step, s: State, now: int, k: string, a: Action, other: string)
    requires Held(s, k, a)
    ensures BeginWrites(step, s, now, other, a) <==> other == k && Restarts(step, s, now, k)
  {
    if other in s && other != k && ActionOf(s[other]) == Some(a) {
      SameActionIsEqualAction(s[k], s[other]);
      assert ActiveElsewhere(s, other, s[other]);
    }
  }

  /** The update did not evict, began a second write attempt through a record whose first one had
      run out of its lease, and the disk shows it. */
  ghost predicate Restarted(disk: State, e: Event, limits: Limits, k: string) {
    && Migrates(disk) && Restarts(e.step, disk, e.now, k)
    && After(disk, e, limits) != disk
  }

  lemma RestartsOnLoaded(disk: State, step: Step, now: int, k: string)
    ensures Restarts(step, Loaded(disk), now, k) <==> Restarts(step, disk, now, k)
  {
    var s := Loaded(disk);
    if k in disk && disk[k].status == Confirming {
      assert LoadKeeps(disk[k]) && s[k] == disk[k];
      if ActiveElsewhere(disk, k, disk[k]) {
        var other :| other in disk && other != k && SamePreviewAction(disk[other], disk[k]) && Active(disk[other]);
        assert LoadKeeps(disk[other]) && s[other] == disk[other];
      }
    }
  }

  lemma OpenedKeepsHeld(disk: State, e: Event, k: string, a: Action)
    requires WellFormed(disk) && Held(disk, k, a) && !Lapsed(disk, e, k)
    ensures var s := Opened(disk, e.now);
            StaysHeld(disk, s, e.now, k, a) && (s[k].status == Confirming && !LeaseHeld(s[k], e.now) ==> Migrates(disk))
    ensures Migrates(disk) ==> Opened(disk, e.now)[k] == disk[k]
  {
    assert WellFormedRecord(disk[k]);
    if Migrates(disk) {
      assert LoadKeeps(disk[k]);
    } else {
      assert EvictRecord(disk[k], e.now).Some?;
    }
  }

  lemma RestartsAfterMigration(disk: State, e: Event, k: string, a: Action)
    requires WellFormed(disk) && Held(disk, k, a) && !Lapsed(disk, e, k)
    ensures Restarts(e.step, Opened(disk, e.now), e.now, k) <==> Migrates(disk) && Restarts(e.step, disk, e.now, k)
  {
    OpenedKeepsHeld(disk, e, k, a);
    RestartsOnLoaded(disk, e.step, e.now, k);
  }

  /** While an action is held, exactly one thing begins another write on it: a begin through the
      held record itself, its lease run out, in an update whose load dropped a stale fix. */
  lemma WriteWhileHeld(disk: State, e: Event, limits: Limits, k: string, a: Action, other: string)
    requires WellFormed(disk) && Held(disk, k, a) && !Lapsed(disk, e, k)
    ensures BeginWrites(e.step, Opened(disk, e.now), e.now, other, a) <==>
              other == k && Migrates(disk) && Restarts(e.step, disk, e.now, k)
    ensures BeginsWrite(disk, e, limits, other, a) ==> Restarted(disk, e, limits, k)
  {
    RestartsAfterMigration(disk, e, k, a);
    WriteInHeldState(e.step, Opened(disk, e.now), e.now, k, a, other);
    if BeginsWrite(disk, e, limits, other, a) { MigrationIsSaved(disk, e, limits); }
  }

  lemma BeginAddsNothing(step: Step, s: State, now: int, k: string)
    requires step.Begin? && k !in s
    ensures k !in Op(step, s, now).state
  {
  }

  lemma MigrationIsSaved(disk: State, e: Event, limits: Limits)
    requires Migrates(disk) && e.step.Begin? && ErrorOf(disk, e, limits) == None
    ensures After(disk, e, limits) != disk
  {
    var s := Opened(disk, e.now);
    var k :| k in disk && !LoadKeeps(disk[k]);
    BeginAddsNothing(e.step, s, e.now, k);
    FittingRemovesOldestPrefix(Op(e.step, s, e.now).state, ProtectedKey(e.step), limits);
    assert Dirty(disk, e.now, Op(e.step, s, e.now));
  }

  lemma OpKeepsHeld(step: Step, s: State, now: int, k: string, a: Action)
    requires WellFormed(s) && Held(s, k, a) && !Restarts(step, s, now, k)
    requires step.Stash? ==> step.key != k
    requires step.Finish? || step.Discard? ==> step.attemptId != ""
    requires !Settles(step, s, now, k)
    ensures StaysHeld(s, Op(step, s, now).state, now, k, a)
  {
    assert WellFormedRecord(s[k]);
  }

  /** Still held, with the starting time of the uncertainty unmoved once it is known, and
      otherwise unset or set to the update's own clock. */
  predicate StaysHeld(before: State, after: State, now: int, k: string, a: Action)
    requires k in before
  {
    && Held(after, k, a)
    && (if UnknownSince(before[k]).Some? then UnknownSince(after[k]) == UnknownSince(before[k])
        else UnknownSince(after[k]) == None || UnknownSince(after[k]) == Some(now))
  }

  lemma SettlingShows(step: Step, s: State, now: int, k: string)
    requires Settles(step, s, now, k)
    ensures var r := Op(step, s, now).state; k !in r || !Active(r[k])
  {
  }

  /** One update settles, lapses or restarts a held action, or keeps it held. */
  lemma HeldStaysHeld(disk: State, e: Event, limits: Limits, k: string, a: Action)
    requires WellFormed(disk) && ValidStep(disk, e.step) && Held(disk, k, a)
    ensures Settled(disk, e, limits, k) || Lapsed(disk, e, k) || Restarted(disk, e, limits, k) ||
            StaysHeld(disk, After(disk, e, limits), e.now, k, a)
  {
    var s := Opened(disk, e.now);
    var op := Op(e.step, s, e.now);
    CommitIsAllOrNothing(disk, e.now, op, ProtectedKey(e.step), limits, e.write);
    if After(disk, e, limits) != disk && !Lapsed(disk, e, k) && !Restarted(disk, e, limits, k) {
      FittingRemovesOldestPrefix(op.state, ProtectedKey(e.step), limits);
      if Settles(e.step, s, e.now, k) {
        SettlingShows(e.step, s, e.now, k);
      } else {
        OpenedKeepsInvariants(disk, e.now);
        OpenedKeepsHeld(disk, e, k, a);
        RestartsAfterMigration(disk, e, k, a);
        OpKeepsHeld(e.step, s, e.now, k, a);
        FittedKeeps(op.state, ProtectedKey(e.step), limits, k);
      }
    }
  }

  /** What matters of one event for a held record: the state before it and the update's verdict. */
  datatype Mark = Mark(held: bool, since: Option<int>, settled: bool, lapsed: bool, restarted: bool, now: int)

  ghost function MarkOf(disk: State, e: Event, limits: Limits, k: string, a: Action): Mark {
    Mark(Held(disk, k, a), if k in disk then UnknownSince(disk[k]) else None,
         Settled(disk, e, limits, k), Lapsed(disk, e, k), Restarted(disk, e, limits, k), e.now)
  }

  ghost function Marks(states: seq<State>, events: seq<Event>, limits: Limits, k: string, a: Action): (r: seq<Mark>)
    requires |states| == |events| + 1
    ensures |r| == |events| && forall i :: 0 <= i < |r| ==> r[i] == MarkOf(states[i], events[i], limits, k, a)
  {
    seq(|events|, i requires 0 <= i < |events| => MarkOf(states[i], events[i], limits, k, a))
  }

  /** The outcome became unknown at event b, that starting time stood still until event m, and
      event m read a clock strictly more than the time to live later. */
  predicate LapsedAfterTtl(marks: seq<Mark>, b: int, m: int) {
    && 0 <= b < m < |marks|
    && marks[m].now - marks[b].now > PREVIEW_TTL
    && StillSince(marks, b, m)
  }

  predicate StillSince(marks: seq<Mark>, b: int, m: int)
    requires 0 <= b <= m < |marks|
  {
    forall x :: b < x <= m ==> marks[x].held && marks[x].since == Some(marks[b].now)
  }

  /** Some event after i, and no later than j, settled the record, found it lapsed, or restarted
      it after a migrating load. */
  ghost predicate Released(marks: seq<Mark>, i: int, j: int)
    requires 0 <= i <= j < |marks|
  {
    ReleasedInTime(marks, i, j) || exists m :: i < m <= j && marks[m].restarted
  }

  /** Some event after i, and no later than j, settled the record or found it lapsed. */
  ghost predicate ReleasedInTime(marks: seq<Mark>, i: int, j: int)
    requires 0 <= i <= j < |marks|
  {
    || (exists m :: i < m <= j && marks[m].settled)
    || (exists b, m :: i < b && m <= j && LapsedAfterTtl(marks, b, m))
  }

  predicate MarkFollows(before: Mark, after: Mark) {
    before.held && !before.settled && !before.lapsed && !before.restarted ==>
      after.held && if before.since.Some? then after.since == before.since
                    else after.since == None || after.since == Some(before.now)
  }

  predicate UnknownFrom(marks: seq<Mark>, i: int, j: int, b: int) {
    0 <= i < b < j < |marks| && StillSince(marks, b, j)
  }

  lemma {:induction false} HeldUntilReleased(marks: seq<Mark>, i: nat, j: nat)
    requires i < j < |marks|
    requires marks[i + 1].held && marks[i + 1].since == None
    requires forall m :: i < m < j ==> MarkFollows(marks[m], marks[m + 1])
    requires forall m :: i < m <= j && marks[m].lapsed ==>
               marks[m].since.Some? && marks[m].now - marks[m].since.value > PREVIEW_TTL
    ensures Released(marks, i, j) || (marks[j].held && !marks[j].settled && !marks[j].lapsed && !marks[j].restarted)
    ensures Released(marks, i, j) || marks[j].since == None || exists b :: UnknownFrom(marks, i, j, b)
  {
    if j > i + 1 {
      HeldUntilReleased(marks, i, j - 1);
      if !Released(marks, i, j - 1) {
        assert MarkFollows(marks[j - 1], marks[j]);
        if marks[j - 1].since.Some? {
          var b :| UnknownFrom(marks, i, j - 1, b);
          assert UnknownFrom(marks, i, j, b);
          assert marks[j].lapsed ==> LapsedAfterTtl(marks, b, j);
        } else if marks[j].since.Some? {
          assert UnknownFrom(marks, i, j, j - 1);
          assert marks[j].lapsed ==> LapsedAfterTtl(marks, j - 1, j);
        }
      }
    }
  }

  lemma MarksFollow(states: seq<State>, events: seq<Event>, limits: Limits, k: string, a: Action, m: nat)
    requires Run(states, events, limits) && m + 1 < |events|
    ensures MarkFollows(MarkOf(states[m], events[m], limits, k, a), MarkOf(states[m + 1], events[m + 1], limits, k, a))
  {
    RunStaysExclusive(states, events, limits, m);
    assert IsStep(states, events, limits, m);
    if Held(states[m], k, a) {
      HeldStaysHeld(states[m], events[m], limits, k, a);
    }
  }

  /** Between two writes begun for one action, through whatever records, the earlier record was
      settled (finished with a result, discarded or taken), or its outcome had been unknown for
      strictly more than the time to live, or it was restarted, its lease run out, by an update
      whose load dropped a stale fix. Reconcile attempts and lease expiry do not restart the time
      to live. */
  lemma WritesAreSeparated(states: seq<State>, events: seq<Event>, limits: Limits,
                           i: nat, j: nat, k: string, other: string, a: Action)
    requires Run(states, events, limits) && i < j < |events|
    requires BeginsWrite(states[i], events[i], limits, k, a)
    requires BeginsWrite(states[j], events[j], limits, other, a)
    ensures Released(Marks(states, events, limits, k, a), i, j)
  {
    var marks := Marks(states, events, limits, k, a);
    FirstMark(states, events, limits, k, a, i);
    forall m | i < m < j ensures MarkFollows(marks[m], marks[m + 1]) {
      MarksFollow(states, events, limits, k, a, m);
    }
    HeldUntilReleased(marks, i, j);
    if marks[j].held && !marks[j].lapsed {
      RunStaysExclusive(states, events, limits, j);
      WriteWhileHeld(states[j], events[j], limits, k, a, other);
    }
  }

  lemma FirstMark(states: seq<State>, events: seq<Event>, limits: Limits, k: string, a: Action, i: nat)
    requires Run(states, events, limits) && i + 1 < |events|
    requires BeginsWrite(states[i], events[i], limits, k, a)
    ensures var mark := MarkOf(states[i + 1], events[i + 1], limits, k, a); mark.held && mark.since == None
  {
    assert IsStep(states, events, limits, i);
    WriteBeginHolds(states[i], events[i], limits, k, a);
  }
}
