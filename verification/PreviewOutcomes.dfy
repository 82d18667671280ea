/** What the end of a confirmation attempt leaves: a result URL confirms the record for good, anything
    else leaves its outcome unknown. */
module PreviewOutcomes {
  import opened Wrappers
  import opened Previews
  import opened PreviewFitting
  import opened PreviewProtocol

  /** The record is under this owner's current attempt, and still will be once the update has opened
      the file: its lease runs, or the update does not evict. */
  predicate HoldsAttempt(disk: State, now: int, k: string, owner: string, attemptId: string) {
    && k in disk && disk[k].owner == owner && disk[k].status == Confirming && disk[k].attemptId == attemptId
    && (LeaseHeld(disk[k], now) || Migrates(disk))
  }

  /** The draft, whom it belongs to and how it came about. */
  predicate SameDraft(p: Preview, q: Preview) {
    && p.owner == q.owner && p.kind == q.kind && p.issue == q.issue && p.fix == q.fix && p.binding == q.binding
    && p.initiatedBy == q.initiatedBy && p.initiatedAt == q.initiatedAt
    && p.failureId == q.failureId && p.patternHash == q.patternHash && p.targetRepo == q.targetRepo
    && p.targetConfig == q.targetConfig && p.verificationVersion == q.verificationVersion
    && p.idempotencyKey == q.idempotencyKey && p.generationHash == q.generationHash
  }

  predicate NoAttempt(p: Preview) {
    p.attemptId == "" && p.leaseExpires == None && !p.reconciling
  }

  lemma HeldWhenOpened(disk: State, now: int, k: string, owner: string, attemptId: string)
    requires HoldsAttempt(disk, now, k, owner, attemptId)
    ensures k in Opened(disk, now) && Opened(disk, now)[k] == disk[k]
  {
    assert LoadKeeps(disk[k]);
    assert LeaseHeld(disk[k], now) ==> EvictRecord(disk[k], now) == Some(disk[k]);
  }

  /** What finish makes of the record of the current attempt. */
  lemma FinishedRecord(s: State, k: string, owner: string, attemptId: string, outcome: Outcome, now: int)
    requires k in s && s[k].owner == owner && s[k].status == Confirming && s[k].attemptId == attemptId
    ensures var op := Op(Finish(k, owner, attemptId, outcome), s, now);
            && op.changed && op.state.Keys == s.Keys && (forall q :: q in s && q != k ==> op.state[q] == s[q])
            && SameDraft(op.state[k], s[k]) && NoAttempt(op.state[k])
            && (if outcome.Url? && outcome.url != ""
                then op.error == None && op.state[k].status == Confirmed && op.state[k].resultUrl == outcome.url && op.state[k].createdAt == Some(now)
                else op.error == (if outcome.Url? then Some(EmptyResult) else None) && op.state[k].status == Unknown &&
                     op.state[k].createdAt == (if s[k].reconciling then s[k].createdAt else Some(now)))
  {
  }

  /** A written finish by the holder of the current attempt: the disk shows the record confirmed with
      the URL it was given, or unknown if it was given none, with its draft and without an attempt. */
  lemma FinishSettlesRecord(disk: State, e: Event, limits: Limits, k: string)
    requires e.step.Finish? && e.step.key == k && HoldsAttempt(disk, e.now, k, e.step.owner, e.step.attemptId)
    requires After(disk, e, limits) != disk || ErrorOf(disk, e, limits) == None
    ensures k in After(disk, e, limits) && SameDraft(After(disk, e, limits)[k], disk[k]) && NoAttempt(After(disk, e, limits)[k])
    ensures var p := After(disk, e, limits)[k];
            if e.step.outcome.Url? && e.step.outcome.url != ""
            then p.status == Confirmed && p.resultUrl == e.step.outcome.url
            else p.status == Unknown && p.createdAt == if disk[k].reconciling then disk[k].createdAt else Some(e.now)
  {
    var s := Opened(disk, e.now);
    HeldWhenOpened(disk, e.now, k, e.step.owner, e.step.attemptId);
    FinishedRecord(s, k, e.step.owner, e.step.attemptId, e.step.outcome, e.now);
    var op := Op(e.step, s, e.now);
    WrittenOrNot(disk, e.now, op, ProtectedKey(e.step), limits, e.write);
    FittingRemovesOldestPrefix(op.state, ProtectedKey(e.step), limits);
    assert !Removable(op.state, ProtectedKey(e.step), k);
  }

  lemma WrittenOrNot(disk: State, now: int, op: OpResult, protectedKey: string, limits: Limits, write: WriteOutcome)
    requires op.changed
    ensures Committed(disk, now, op, protectedKey, limits, write) != disk || CommitError(disk, now, op, protectedKey, limits, write) == None ==>
              Committed(disk, now, op, protectedKey, limits, write) == Fitted(op.state, protectedKey, limits)
  {
  }

  /** A finish reports success only to the holder of the current attempt, with a URL or a failure. */
  lemma FinishNeedsAttempt(disk: State, e: Event, limits: Limits)
    requires e.step.Finish? && ErrorOf(disk, e, limits) == None
    ensures var s, k := Opened(disk, e.now), e.step.key;
            && k in s && s[k].owner == e.step.owner && s[k].status == Confirming && s[k].attemptId == e.step.attemptId
            && e.step.outcome != Url("")
  {
  }

  // --------------------------------------------------------------- a confirmed record

  predicate IsConfirmed(s: State, k: string, url: string) {
    k in s && s[k].status == Confirmed && s[k].resultUrl == url && url != ""
  }

  /** Begin by the owner answers with the recorded URL: no error, nothing changed. By anyone else it
      finds nothing. */
  lemma ConfirmedAnswersBegin(s: State, k: string, url: string, owner: string, attemptId: string, lease: int, now: int)
    requires IsConfirmed(s, k, url)
    ensures Op(Begin(k, owner, attemptId, lease), s, now) ==
              OpResult(s, false, if owner == s[k].owner then None else Some(NotFound))
  {
  }

  /** No valid operation changes a confirmed record; taking it removes it. */
  lemma OpKeepsConfirmed(step: Step, s: State, now: int, k: string, url: string)
    requires IsConfirmed(s, k, url) && s[k].attemptId == "" && (step.Stash? ==> step.key != k)
    requires step.Discard? ==> step.attemptId != ""
    ensures var r := Op(step, s, now).state; k in r ==> r[k] == s[k]
    ensures k !in Op(step, s, now).state ==> step == Take(k, s[k].owner)
  {
  }

  /** Begin starts an attempt, to write or to reconcile, through record k. */
  predicate BeginsAny(disk: State, e: Event, k: string) {
    e.step.Begin? && e.step.key == k && Op(e.step, Opened(disk, e.now), e.now).changed
  }

  /** The update evicts, and the record was last touched more than the time to live ago. */
  predicate OverTtl(disk: State, e: Event, k: string) {
    k in disk && !Migrates(disk) && (disk[k].createdAt.None? || e.now - disk[k].createdAt.value > 15 * 60 * SECOND)
  }

  lemma ConfirmedIsOpened(disk: State, e: Event, k: string, url: string)
    requires IsConfirmed(disk, k, url)
    ensures OverTtl(disk, e, k) <==> k !in Opened(disk, e.now)
    ensures !OverTtl(disk, e, k) ==> Opened(disk, e.now)[k] == disk[k]
  {
    assert LoadKeeps(disk[k]);
  }

  /** One update leaves a confirmed record alone, unless it is taken or its time to live is over, and
      starts no attempt through it. */
  lemma ConfirmedStays(disk: State, e: Event, limits: Limits, k: string, url: string)
    requires WellFormed(disk) && ValidStep(disk, e.step) && IsConfirmed(disk, k, url)
    ensures OverTtl(disk, e, k) || e.step == Take(k, disk[k].owner) ||
            (k in After(disk, e, limits) && After(disk, e, limits)[k] == disk[k])
    ensures !BeginsAny(disk, e, k)
  {
    var s := Opened(disk, e.now);
    assert WellFormedRecord(disk[k]);
    ConfirmedIsOpened(disk, e, k, url);
    if !OverTtl(disk, e, k) {
      OpKeepsConfirmed(e.step, s, e.now, k, url);
      var op := Op(e.step, s, e.now);
      FittingRemovesOldestPrefix(op.state, ProtectedKey(e.step), limits);
      CommitIsAllOrNothing(disk, e.now, op, ProtectedKey(e.step), limits, e.write);
      if e.step.Begin? && e.step.key == k { ConfirmedAnswersBegin(s, k, url, e.step.owner, e.step.attemptId, e.step.lease, e.now); }
    }
  }

  /** From one state to another of a run the record is neither taken nor over its time to live. */
  predicate KeptBetween(states: seq<State>, events: seq<Event>, k: string, i: nat, j: nat)
    requires |states| == |events| + 1 && i <= j <= |events|
  {
    forall m :: i <= m < j ==> k in states[m] && !OverTtl(states[m], events[m], k) && events[m].step != Take(k, states[m][k].owner)
  }

  /** A confirmed record stays as it is for as long as it is kept, and no attempt starts through it. */
  lemma {:induction false} ConfirmedIsFinal(states: seq<State>, events: seq<Event>, limits: Limits, i: nat, j: nat, k: string, url: string)
    requires Run(states, events, limits) && i <= j <= |events| && IsConfirmed(states[i], k, url) && KeptBetween(states, events, k, i, j)
    ensures IsConfirmed(states[j], k, url) && states[j][k] == states[i][k]
    ensures j < |events| ==> !BeginsAny(states[j], events[j], k)
  {
    if j > i {
      ConfirmedIsFinal(states, events, limits, i, j - 1, k, url);
      RunStaysExclusive(states, events, limits, j - 1);
      assert IsStep(states, events, limits, j - 1);
      ConfirmedStays(states[j - 1], events[j - 1], limits, k, url);
    }
    if j < |events| {
      RunStaysExclusive(states, events, limits, j);
      assert IsStep(states, events, limits, j);
      ConfirmedStays(states[j], events[j], limits, k, url);
    }
  }

  /** Over a run: once a finish by the holder of the current attempt has reported success with a URL,
      nothing writes or reconciles through that record again while it is kept. */
  lemma SuccessIsFinal(states: seq<State>, events: seq<Event>, limits: Limits, i: nat, j: nat, k: string)
    requires Run(states, events, limits) && i < j < |events|
    requires events[i].step.Finish? && events[i].step.key == k && events[i].step.outcome.Url?
    requires ErrorOf(states[i], events[i], limits) == None
    requires HoldsAttempt(states[i], events[i].now, k, events[i].step.owner, events[i].step.attemptId)
    requires KeptBetween(states, events, k, i + 1, j)
    ensures IsConfirmed(states[j], k, events[i].step.outcome.url) && !BeginsAny(states[j], events[j], k)
  {
    assert IsStep(states, events, limits, i);
    FinishNeedsAttempt(states[i], events[i], limits);
    FinishSettlesRecord(states[i], events[i], limits, k);
    ConfirmedIsFinal(states, events, limits, i + 1, j, k, events[i].step.outcome.url);
  }
}
