/** Confirmations in flight together: every call of Service.Confirm is a process that begins an
    attempt, validates, writes to or reconciles with GitHub, records the audit entry and finishes
    or discards. Steps of all processes interleave with each other, with every other store update,
    and with crashes. backend/internal/actions/actions.go. */
module ConfirmProtocol {
  import opened Wrappers
  import opened Previews
  import opened PreviewProtocol
  import opened PreviewMigration
  import opened PreviewOutcomes
  import opened PreviewLifecycle
  import opened PreviewDrafts
  import opened WriteAudit

  datatype Pc =
    | Validating                       // write mode, nothing sent yet
    | Writing                          // confirmEntry has been called
    | Reconciling                      // reconcileEntry has been called
    | Recording(url: string)           // about to write the audit record
    | Finishing(outcome: Outcome)      // about to finish the attempt
    | Discarding                       // about to discard the preview

  /** beganAt is the position in the history of the update that began the attempt. */
  datatype Proc = Proc(key: string, owner: string, entry: Entry, attemptId: string,
                       reconcile: bool, beganAt: nat, pc: Pc)

  /** A call of confirmEntry, by the attempt that made it. */
  datatype Call = Call(beganAt: nat, key: string, action: Option<Action>)

  /** states and events are the history of the preview file; its last state is the file itself. */
  datatype System = System(
    states: seq<State>, events: seq<Event>, audit: Audit, procs: map<nat, Proc>,
    attempts: set<string>, calls: set<Call>)

  function Disk(y: System): State
    requires y.states != []
  {
    y.states[|y.states| - 1]
  }

  datatype WriteResult = TargetChanged | Returned(url: string, failed: bool)

  datatype ReconcileResult = Gone | NotSeen | Seen(url: string)

  datatype Move =
    | OtherUpdate(e: Event)
    | BeginConfirm(pid: nat, e: Event)
    | Reject(pid: nat)
    | CallWrite(pid: nat)
    | WriteReturns(pid: nat, result: WriteResult)
    | ReconcileReturns(pid: nat, found: ReconcileResult)
    | RecordWrite(pid: nat, confirmedAt: int, loads: bool, write: WriteOutcome)
    | FinishConfirm(pid: nat, now: int, write: WriteOutcome)
    | DiscardConfirm(pid: nat, now: int, write: WriteOutcome)
    | Crash(pid: nat)

  predicate At(y: System, pid: nat, pc: Pc) {
    pid in y.procs && y.procs[pid].pc == pc
  }

  predicate Enabled(y: System, m: Move)
    requires y.states != []
  {
    match m
    case OtherUpdate(e) => !e.step.Begin? && !e.step.Finish? && !e.step.Discard? && ValidStep(Disk(y), e.step)
    case BeginConfirm(pid, e) => pid !in y.procs && e.step.Begin? && e.step.attemptId != "" && e.step.attemptId !in y.attempts
    case Reject(pid) => At(y, pid, Validating)
    case CallWrite(pid) => At(y, pid, Validating)
    case WriteReturns(pid, _) => At(y, pid, Writing)
    case ReconcileReturns(pid, _) => At(y, pid, Reconciling)
    case RecordWrite(pid, _, _, _) => pid in y.procs && y.procs[pid].pc.Recording?
    case FinishConfirm(pid, _, _) => pid in y.procs && y.procs[pid].pc.Finishing?
    case DiscardConfirm(pid, _, _) => At(y, pid, Discarding)
    case Crash(pid) => pid in y.procs
  }

  /** One more update of the preview file. */
  ghost function Updated(y: System, e: Event, limits: Limits): System
    requires y.states != []
  {
    y.(states := y.states + [After(Disk(y), e, limits)], events := y.events + [e])
  }

  function SetPc(y: System, pid: nat, pc: Pc): System
    requires pid in y.procs
  {
    y.(procs := y.procs[pid := y.procs[pid].(pc := pc)])
  }

  function Ended(y: System, pid: nat): System {
    y.(procs := y.procs - {pid})
  }

  ghost predicate BeginSucceeds(disk: State, e: Event, limits: Limits)
    requires e.step.Begin?
  {
    Op(e.step, Opened(disk, e.now), e.now).changed && ErrorOf(disk, e, limits).None?
  }

  ghost function Begun(y: System, pid: nat, e: Event, limits: Limits): System
    requires y.states != [] && e.step.Begin?
  {
    var next := Updated(y, e, limits).(attempts := y.attempts + {e.step.attemptId});
    var s := Opened(Disk(y), e.now);
    if BeginSucceeds(Disk(y), e, limits) && e.step.key in s && Restore(s[e.step.key]).Success?
    then
      var record := s[e.step.key];
      next.(procs := y.procs[pid := Proc(
        e.step.key, e.step.owner, Restore(record).value, e.step.attemptId,
        record.status == Unknown, |y.events|, if record.status == Unknown then Reconciling else Validating)])
    else next
  }

  /** The audit entry of process p for a result URL. */
  function AuditEntry(p: Proc, url: string, confirmedAt: int): AuditRecord {
    AuditRecord(p.key, p.entry.initiatedBy, p.owner, p.entry.kind, p.entry.failureId, p.entry.targetRepo, url,
                if p.reconcile then WriteReconciled else WriteConfirmed, p.entry.initiatedAt, Some(confirmedAt))
  }

  function EntryAction(e: Entry): Option<Action> {
    match e.kind
    case IssueKind => if e.issue.key != "" then Some(Action(IssueKind, e.issue.key)) else None
    case FixKind => if e.fix.Some? && e.fix.value.key != "" then Some(Action(FixKind, e.fix.value.key)) else None
    case OtherKind(_) => None
  }

  /** Process p has not called confirmEntry. */
  predicate NotCalled(y: System, p: Proc) {
    forall c :: c in y.calls ==> c.beganAt != p.beganAt
  }

  ghost function Next(y: System, m: Move, limits: Limits): System
    requires y.states != [] && Enabled(y, m)
  {
    match m
    case OtherUpdate(e) => Updated(y, e, limits)
    case BeginConfirm(pid, e) => Begun(y, pid, e, limits)
    case Reject(pid) => SetPc(y, pid, Discarding)
    case CallWrite(pid) =>
      var p := y.procs[pid];
      SetPc(y, pid, Writing).(calls := y.calls + {Call(p.beganAt, p.key, EntryAction(p.entry))})
    case WriteReturns(pid, result) =>
      SetPc(y, pid, match result
            case TargetChanged => Discarding
            case Returned(url, failed) =>
              if url != "" then Recording(url) else if failed then Finishing(AttemptFailed) else Finishing(Url("")))
    case ReconcileReturns(pid, found) =>
      SetPc(y, pid, match found
            case Gone => Discarding
            case NotSeen => Finishing(AttemptFailed)
            case Seen(url) => Recording(url))
    case RecordWrite(pid, confirmedAt, loads, write) =>
      var p := y.procs[pid];
      var r := AuditEntry(p, p.pc.url, confirmedAt);
      SetPc(y, pid, Finishing(if Recorded(y.audit, r, loads, write) then Url(p.pc.url) else AttemptFailed))
        .(audit := AfterRecord(y.audit, r, loads, write))
    case FinishConfirm(pid, now, write) =>
      var p := y.procs[pid];
      Ended(Updated(y, Event(Finish(p.key, p.owner, p.attemptId, p.pc.outcome), now, write), limits), pid)
    case DiscardConfirm(pid, now, write) =>
      var p := y.procs[pid];
      Ended(Updated(y, Event(Discard(p.key, p.owner, p.attemptId), now, write), limits), pid)
    case Crash(pid) => Ended(y, pid)
  }

  // ------------------------------------------------------------------ invariants

  ghost predicate HistoryHolds(y: System, limits: Limits) {
    y.states != [] && Run(y.states, y.events, limits)
  }

  /** Processes hold distinct, used attempt ids and distinct beginnings, and one that has not
      called confirmEntry has no call on record. */
  predicate ProcsHold(y: System) {
    && (forall pid :: pid in y.procs ==> ProcHolds(y, y.procs[pid]))
    && DistinctProcs(y)
  }

  predicate DistinctProcs(y: System) {
    forall p1, p2 :: p1 in y.procs && p2 in y.procs && p1 != p2 ==>
      y.procs[p1].attemptId != y.procs[p2].attemptId && y.procs[p1].beganAt != y.procs[p2].beganAt
  }

  predicate ProcHolds(y: System, p: Proc) {
    && p.attemptId in y.attempts && p.attemptId != "" && p.beganAt < |y.events|
    && (p.pc == Validating ==> NotCalled(y, p))
    && (p.pc.Finishing? && p.pc.outcome.Url? && p.pc.outcome.url != "" ==>
          p.key in y.audit && Vouches(y.audit[p.key], p.entry, p.owner, p.pc.outcome.url))
  }

  /** The audit record says who initiated and who confirmed the write of this entry, what it was, and
      where it went. */
  predicate Vouches(a: AuditRecord, e: Entry, owner: string, url: string) {
    && a.initiatedBy == e.initiatedBy && a.initiatedAt == e.initiatedAt && a.confirmedBy == owner
    && a.kind == e.kind && a.failureId == e.failureId && a.targetRepo == e.targetRepo && a.resultUrl == url
  }

  /** The audit record of a confirmed preview says the same of the preview. */
  predicate VouchesFor(a: AuditRecord, p: Preview) {
    && a.initiatedBy == p.initiatedBy && a.initiatedAt == p.initiatedAt && a.confirmedBy == p.owner
    && a.kind == p.kind && a.failureId == p.failureId && a.targetRepo == p.targetRepo && a.resultUrl == p.resultUrl
  }

  /** Every confirmed preview has an audit record under its own key that vouches for it. */
  predicate ConfirmedAreAudited(disk: State, audit: Audit) {
    forall k :: k in disk && disk[k].status == Confirmed ==> k in audit && VouchesFor(audit[k], disk[k])
  }

  /** As long as the process's attempt is the record's current one, its entry is the record's draft. */
  predicate ProcMatches(disk: State, p: Proc) {
    p.key in disk && disk[p.key].status == Confirming && disk[p.key].attemptId == p.attemptId ==>
      disk[p.key].owner == p.owner && Restore(disk[p.key]) == Success(p.entry)
  }

  predicate ProcsMatch(y: System)
    requires y.states != []
  {
    forall pid :: pid in y.procs ==> ProcMatches(Disk(y), y.procs[pid])
  }

  /** A process that may still write began its attempt in write mode, and so did every call. */
  ghost predicate CallsHold(y: System, limits: Limits)
    requires |y.states| == |y.events| + 1
  {
    && (forall c :: c in y.calls ==> BeganInHistory(y, limits, c.beganAt, c.key, c.action))
    && (forall c, d :: c in y.calls && d in y.calls && c.beganAt == d.beganAt ==> c == d)
    && (forall pid :: pid in y.procs && y.procs[pid].pc == Validating ==>
          BeganInHistory(y, limits, y.procs[pid].beganAt, y.procs[pid].key, EntryAction(y.procs[pid].entry)))
  }

  ghost predicate BeganInHistory(y: System, limits: Limits, i: nat, key: string, action: Option<Action>)
    requires |y.states| == |y.events| + 1
  {
    i < |y.events| && (action.Some? ==> BeginsWrite(y.states[i], y.events[i], limits, key, action.value))
  }

  ghost predicate Invariant(y: System, limits: Limits) {
    && HistoryHolds(y, limits)
    && ProcsHold(y)
    && ProcsMatch(y)
    && ConfirmedAreAudited(Disk(y), y.audit)
    && CallsHold(y, limits)
  }

  // ------------------------------------------------------------------ preservation

  lemma UpdateExtendsRun(y: System, e: Event, limits: Limits)
    requires HistoryHolds(y, limits) && ValidStep(Disk(y), e.step)
    ensures HistoryHolds(Updated(y, e, limits), limits)
  {
    RunExtends(y.states, y.events, limits, e);
  }

  lemma SameStep(states: seq<State>, events: seq<Event>, longer: seq<State>, more: seq<Event>, limits: Limits, i: nat)
    requires |states| == |events| + 1 && |longer| == |more| + 1 && i < |events| && i < |more|
    requires longer[i] == states[i] && longer[i + 1] == states[i + 1] && more[i] == events[i] && IsStep(states, events, limits, i)
    ensures IsStep(longer, more, limits, i)
  {
  }

  lemma RunExtends(states: seq<State>, events: seq<Event>, limits: Limits, e: Event)
    requires states != [] && Run(states, events, limits) && ValidStep(states[|states| - 1], e.step)
    ensures Run(states + [After(states[|states| - 1], e, limits)], events + [e], limits)
  {
    var next := After(states[|states| - 1], e, limits);
    var longer, more := states + [next], events + [e];
    forall i | 0 <= i < |more| ensures IsStep(longer, more, limits, i) {
      if i < |events| { EarlierStep(states, events, longer, more, limits, i); } else { LastStep(states, events, limits, e, next); }
    }
  }

  lemma LastStep(states: seq<State>, events: seq<Event>, limits: Limits, e: Event, next: State)
    requires |states| == |events| + 1 && ValidStep(states[|events|], e.step) && next == After(states[|events|], e, limits)
    ensures IsStep(states + [next], events + [e], limits, |events|)
  {
  }

  lemma EarlierStep(states: seq<State>, events: seq<Event>, longer: seq<State>, more: seq<Event>, limits: Limits, i: nat)
    requires Run(states, events, limits) && |longer| == |more| + 1 && i < |events| && i < |more|
    requires longer[i] == states[i] && longer[i + 1] == states[i + 1] && more[i] == events[i]
    ensures IsStep(longer, more, limits, i)
  {
    assert IsStep(states, events, limits, i);
    SameStep(states, events, longer, more, limits, i);
  }

  lemma NextKeepsHistory(y: System, m: Move, limits: Limits)
    requires HistoryHolds(y, limits) && ProcsHold(y) && Enabled(y, m)
    ensures HistoryHolds(Next(y, m, limits), limits)
  {
    match m
    case OtherUpdate(e) => UpdateExtendsRun(y, e, limits);
    case BeginConfirm(pid, e) => UpdateExtendsRun(y, e, limits);
    case FinishConfirm(pid, now, write) =>
      var p := y.procs[pid];
      UpdateExtendsRun(y, Event(Finish(p.key, p.owner, p.attemptId, p.pc.outcome), now, write), limits);
    case DiscardConfirm(pid, now, write) =>
      var p := y.procs[pid];
      UpdateExtendsRun(y, Event(Discard(p.key, p.owner, p.attemptId), now, write), limits);
    case _ =>
  }

  /** Records are only ever added to the audit, never changed or removed. */
  lemma AuditOnlyGrows(y: System, m: Move, limits: Limits)
    requires y.states != [] && Enabled(y, m)
    ensures forall id :: id in y.audit ==> id in Next(y, m, limits).audit && Next(y, m, limits).audit[id] == y.audit[id]
  {
  }

  predicate Grows(y: System, z: System) {
    && y.attempts <= z.attempts && |y.events| <= |z.events|
    && forall id :: id in y.audit ==> id in z.audit && z.audit[id] == y.audit[id]
  }

  lemma NextGrows(y: System, m: Move, limits: Limits)
    requires y.states != [] && Enabled(y, m)
    ensures Grows(y, Next(y, m, limits))
  {
  }

  /** What a move does to the processes. */
  lemma ProcsAfter(y: System, m: Move, limits: Limits)
    requires y.states != [] && Enabled(y, m)
    ensures var z := Next(y, m, limits);
            forall q :: q in z.procs ==>
              if m.OtherUpdate? then q in y.procs && z.procs[q] == y.procs[q]
              else if q != m.pid then q in y.procs && z.procs[q] == y.procs[q]
              else if m.BeginConfirm? then
                z.procs[q].attemptId == m.e.step.attemptId && z.procs[q].beganAt == |y.events| && !z.procs[q].pc.Finishing?
              else q in y.procs && z.procs[q] == y.procs[q].(pc := z.procs[q].pc) && z.procs[q].pc != Validating
    ensures m.CallWrite? || Next(y, m, limits).calls == y.calls
  {
  }

  lemma RecordIsRead(audit: Audit, r: AuditRecord, loads: bool, write: WriteOutcome)
    requires Recorded(audit, r, loads, write)
    ensures r.id in AfterRecord(audit, r, loads, write)
    ensures var a := AfterRecord(audit, r, loads, write)[r.id];
            && a.initiatedBy == r.initiatedBy && a.initiatedAt == r.initiatedAt && a.confirmedBy == r.confirmedBy
            && a.kind == r.kind && a.failureId == r.failureId && a.targetRepo == r.targetRepo && a.resultUrl == r.resultUrl
  {
  }

  lemma NextKeepsProcs(y: System, m: Move, limits: Limits)
    requires HistoryHolds(y, limits) && ProcsHold(y) && Enabled(y, m)
    requires forall c :: c in y.calls ==> c.beganAt < |y.events|
    ensures ProcsHold(Next(y, m, limits))
  {
    var z := Next(y, m, limits);
    NextGrows(y, m, limits);
    ProcsAfter(y, m, limits);
    forall q | q in z.procs ensures ProcHolds(z, z.procs[q]) {
      if !m.OtherUpdate? && q == m.pid {
        NextKeepsMovedProc(y, m, limits);
      } else {
        NextKeepsOtherProc(y, m, limits, q);
      }
    }
    NextKeepsDistinct(y, m, limits);
  }

  lemma NextKeepsOtherProc(y: System, m: Move, limits: Limits, q: nat)
    requires HistoryHolds(y, limits) && ProcsHold(y) && Enabled(y, m)
    requires q in Next(y, m, limits).procs && (m.OtherUpdate? || q != m.pid)
    ensures ProcHolds(Next(y, m, limits), Next(y, m, limits).procs[q])
  {
    NextGrows(y, m, limits);
    ProcsAfter(y, m, limits);
    assert ProcHolds(y, y.procs[q]);
    if m.CallWrite? { assert y.procs[q].beganAt != y.procs[m.pid].beganAt; }
  }

  lemma NextKeepsDistinct(y: System, m: Move, limits: Limits)
    requires HistoryHolds(y, limits) && ProcsHold(y) && Enabled(y, m)
    ensures DistinctProcs(Next(y, m, limits))
  {
    ProcsAfter(y, m, limits);
    forall pid | pid in y.procs ensures y.procs[pid].attemptId in y.attempts && y.procs[pid].beganAt < |y.events| {
      assert ProcHolds(y, y.procs[pid]);
    }
  }

  lemma NextKeepsMovedProc(y: System, m: Move, limits: Limits)
    requires HistoryHolds(y, limits) && ProcsHold(y) && Enabled(y, m) && !m.OtherUpdate?
    requires forall c :: c in y.calls ==> c.beganAt < |y.events|
    requires m.pid in Next(y, m, limits).procs
    ensures ProcHolds(Next(y, m, limits), Next(y, m, limits).procs[m.pid])
  {
    var z := Next(y, m, limits);
    if m.BeginConfirm? {
    } else {
      assert ProcHolds(y, y.procs[m.pid]);
      if m.RecordWrite? {
        var p := y.procs[m.pid];
        var r := AuditEntry(p, p.pc.url, m.confirmedAt);
        if Recorded(y.audit, r, m.loads, m.write) { RecordIsRead(y.audit, r, m.loads, m.write); }
      }
    }
  }

  lemma ConfirmedWhenOpened(disk: State, now: int, k: string)
    ensures var s := Opened(disk, now); k in s && s[k].status == Confirmed ==> k in disk && disk[k] == s[k]
  {
    if k in Opened(disk, now) && !Migrates(disk) { assert EvictRecord(disk[k], now) == Some(Opened(disk, now)[k]); }
  }

  /** A record is confirmed only because it already was, or because finish was given its URL. */
  lemma ConfirmedAfter(disk: State, e: Event, limits: Limits, k: string)
    requires ValidStep(disk, e.step)
    requires k in After(disk, e, limits) && After(disk, e, limits)[k].status == Confirmed
    ensures var p := After(disk, e, limits)[k];
            (k in disk && disk[k] == p) ||
            (e.step.Finish? && e.step.key == k && e.step.outcome == Url(p.resultUrl) && p.resultUrl != "" &&
             k in disk && SameDraft(p, disk[k]) && disk[k].status == Confirming && disk[k].owner == e.step.owner &&
             disk[k].attemptId == e.step.attemptId)
  {
    var s := Opened(disk, e.now);
    ConfirmedWhenOpened(disk, e.now, k);
    var r := Op(e.step, s, e.now).state;
    PreviewFitting.FittingRemovesOldestPrefix(r, ProtectedKey(e.step), limits);
    if After(disk, e, limits) != disk {
      assert k in r && r[k] == After(disk, e, limits)[k];
      ConfirmedByOp(e.step, s, e.now, k);
      if k in s && s[k].status == Confirming { ConfirmingWhenOpened(disk, e.now, k); }
    }
  }

  lemma ConfirmingWhenOpened(disk: State, now: int, k: string)
    requires k in Opened(disk, now) && Opened(disk, now)[k].status == Confirming
    ensures k in disk && Opened(disk, now)[k] == disk[k]
  {
    if !Migrates(disk) { assert EvictRecord(disk[k], now) == Some(Opened(disk, now)[k]); }
  }

  lemma ConfirmedByOp(step: Step, s: State, now: int, k: string)
    requires step.Stash? ==> IsFreshRecord(step.record)
    requires step.StashIdempotent? ==> IsFreshRecord(step.record)
    requires k in Op(step, s, now).state && Op(step, s, now).state[k].status == Confirmed
    ensures var p := Op(step, s, now).state[k];
            (k in s && s[k] == p) ||
            (step.Finish? && step.key == k && step.outcome == Url(p.resultUrl) && p.resultUrl != "" &&
             k in s && SameDraft(p, s[k]) && s[k].status == Confirming && s[k].owner == step.owner && s[k].attemptId == step.attemptId)
  {
  }

  lemma UpdateKeepsAudited(y: System, e: Event, limits: Limits)
    requires HistoryHolds(y, limits) && ConfirmedAreAudited(Disk(y), y.audit) && ValidStep(Disk(y), e.step)
    requires e.step.Finish? && e.step.outcome.Url? && e.step.outcome.url != "" ==> FinishIsVouched(Disk(y), y.audit, e.step)
    ensures ConfirmedAreAudited(Disk(Updated(y, e, limits)), y.audit)
  {
    var after := After(Disk(y), e, limits);
    forall k | k in after && after[k].status == Confirmed ensures k in y.audit && VouchesFor(y.audit[k], after[k]) {
      ConfirmedAfter(Disk(y), e, limits, k);
      if k in Disk(y) && SameDraft(after[k], Disk(y)[k]) { SameDraftRestores(after[k], Disk(y)[k]); }
    }
  }

  lemma SameDraftRestores(p: Preview, q: Preview)
    requires SameDraft(p, q)
    ensures Restore(p) == Restore(q)
  {
  }

  /** A finish with a URL comes with an audit record for the draft of the record it will confirm. */
  predicate FinishIsVouched(disk: State, audit: Audit, step: Step)
    requires step.Finish? && step.outcome.Url?
  {
    && step.key in audit
    && (step.key in disk && disk[step.key].status == Confirming && disk[step.key].owner == step.owner && disk[step.key].attemptId == step.attemptId ==>
          Restore(disk[step.key]).Success? && Vouches(audit[step.key], Restore(disk[step.key]).value, step.owner, step.outcome.url))
  }

  lemma NextKeepsAudited(y: System, m: Move, limits: Limits)
    requires HistoryHolds(y, limits) && ProcsHold(y) && ProcsMatch(y) && ConfirmedAreAudited(Disk(y), y.audit) && Enabled(y, m)
    ensures ConfirmedAreAudited(Disk(Next(y, m, limits)), Next(y, m, limits).audit)
  {
    NextHistory(y, m, limits);
    NextGrows(y, m, limits);
    var e := EventOf(y, m);
    if e.Some? {
      if m.FinishConfirm? || m.DiscardConfirm? { assert ProcHolds(y, y.procs[m.pid]) && ProcMatches(Disk(y), y.procs[m.pid]); }
      UpdateKeepsAudited(y, e.value, limits);
      SameDisk(Next(y, m, limits), Updated(y, e.value, limits));
    } else {
      SameDisk(Next(y, m, limits), y);
    }
    AuditedStays(Disk(Next(y, m, limits)), y.audit, Next(y, m, limits).audit);
  }

  lemma SameDisk(y: System, z: System)
    requires y.states != [] && y.states == z.states
    ensures Disk(y) == Disk(z)
  {
  }

  lemma AuditedStays(disk: State, audit: Audit, larger: Audit)
    requires ConfirmedAreAudited(disk, audit) && forall id :: id in audit ==> id in larger && larger[id] == audit[id]
    ensures ConfirmedAreAudited(disk, larger)
  {
  }

  lemma RestoredAction(p: Preview)
    requires Restore(p).Success?
    ensures EntryAction(Restore(p).value) == ActionOf(p)
  {
  }

  lemma BeganStays(y: System, e: Event, limits: Limits, i: nat, key: string, action: Option<Action>)
    requires HistoryHolds(y, limits) && BeganInHistory(y, limits, i, key, action)
    ensures BeganInHistory(Updated(y, e, limits), limits, i, key, action)
  {
    var z := Updated(y, e, limits);
    assert z.states[i] == y.states[i] && z.events[i] == y.events[i];
  }

  lemma NextKeepsBegan(y: System, m: Move, limits: Limits, i: nat, key: string, action: Option<Action>)
    requires HistoryHolds(y, limits) && Enabled(y, m) && BeganInHistory(y, limits, i, key, action)
    ensures |Next(y, m, limits).states| == |Next(y, m, limits).events| + 1
    ensures BeganInHistory(Next(y, m, limits), limits, i, key, action)
  {
    NextHistory(y, m, limits);
    var e := EventOf(y, m);
    if e.Some? { BeganStays(y, e.value, limits, i, key, action); }
  }

  /** The store event of a move, if it has one. */
  function EventOf(y: System, m: Move): Option<Event>
    requires y.states != [] && Enabled(y, m)
  {
    match m
    case OtherUpdate(e) => Some(e)
    case BeginConfirm(_, e) => Some(e)
    case FinishConfirm(pid, now, write) =>
      Some(Event(Finish(y.procs[pid].key, y.procs[pid].owner, y.procs[pid].attemptId, y.procs[pid].pc.outcome), now, write))
    case DiscardConfirm(pid, now, write) =>
      Some(Event(Discard(y.procs[pid].key, y.procs[pid].owner, y.procs[pid].attemptId), now, write))
    case _ => None
  }

  lemma NextHistory(y: System, m: Move, limits: Limits)
    requires y.states != [] && Enabled(y, m)
    ensures var z, e := Next(y, m, limits), EventOf(y, m);
            if e.Some? then z.states == Updated(y, e.value, limits).states && z.events == Updated(y, e.value, limits).events
            else z.states == y.states && z.events == y.events
  {
  }

  /** A process enters write mode only by a begin that succeeded in write mode. */
  lemma BegunInHistory(y: System, pid: nat, e: Event, limits: Limits)
    requires HistoryHolds(y, limits) && Enabled(y, BeginConfirm(pid, e))
    requires var z := Begun(y, pid, e, limits); pid in z.procs && z.procs[pid].pc == Validating
    ensures var z := Begun(y, pid, e, limits);
            |z.states| == |z.events| + 1 &&
            BeganInHistory(z, limits, z.procs[pid].beganAt, z.procs[pid].key, EntryAction(z.procs[pid].entry))
  {
    var z := Begun(y, pid, e, limits);
    var s := Opened(Disk(y), e.now);
    RestoredAction(s[e.step.key]);
    assert z.states[|y.events|] == Disk(y) && z.events[|y.events|] == e;
  }

  lemma NextKeepsCalls(y: System, m: Move, limits: Limits)
    requires Invariant(y, limits) && Enabled(y, m)
    ensures |Next(y, m, limits).states| == |Next(y, m, limits).events| + 1
    ensures CallsHold(Next(y, m, limits), limits)
  {
    var z := Next(y, m, limits);
    ProcsAfter(y, m, limits);
    NextKeepsHistory(y, m, limits);
    forall c | c in z.calls ensures BeganInHistory(z, limits, c.beganAt, c.key, c.action) {
      if c in y.calls {
        NextKeepsBegan(y, m, limits, c.beganAt, c.key, c.action);
      } else {
        var p := y.procs[m.pid];
        NextKeepsBegan(y, m, limits, p.beganAt, p.key, EntryAction(p.entry));
      }
    }
    forall c, d | c in z.calls && d in z.calls && c.beganAt == d.beganAt ensures c == d {
      if m.CallWrite? { assert ProcHolds(y, y.procs[m.pid]); }
    }
    forall q | q in z.procs && z.procs[q].pc == Validating
      ensures BeganInHistory(z, limits, z.procs[q].beganAt, z.procs[q].key, EntryAction(z.procs[q].entry))
    {
      if m.BeginConfirm? && q == m.pid {
        BegunInHistory(y, m.pid, m.e, limits);
      } else {
        NextKeepsBegan(y, m, limits, z.procs[q].beganAt, z.procs[q].key, EntryAction(z.procs[q].entry));
      }
    }
  }

  /** A record is under an attempt after an update because it was before, with the same draft, or
      because that attempt was just begun on it. */
  lemma AttemptAfter(disk: State, e: Event, limits: Limits, k: string)
    requires ValidStep(disk, e.step)
    requires k in After(disk, e, limits) && After(disk, e, limits)[k].status == Confirming
    ensures var p := After(disk, e, limits)[k];
            (k in disk && disk[k].status == Confirming && disk[k].attemptId == p.attemptId && SameDraft(p, disk[k])) ||
            (e.step.Begin? && e.step.key == k && e.step.attemptId == p.attemptId && After(disk, e, limits) != disk &&
             k in Opened(disk, e.now) && SameDraft(p, Opened(disk, e.now)[k]) && p.owner == e.step.owner)
  {
    var s := Opened(disk, e.now);
    var op := Op(e.step, s, e.now);
    PreviewFitting.CommitIsAllOrNothing(disk, e.now, op, ProtectedKey(e.step), limits, e.write);
    if After(disk, e, limits) != disk {
      PreviewFitting.FittingRemovesOldestPrefix(op.state, ProtectedKey(e.step), limits);
      AttemptByOp(e.step, s, e.now, k);
      if k in s && s[k].status == Confirming { ConfirmingWhenOpened(disk, e.now, k); }
    }
  }

  lemma AttemptByOp(step: Step, s: State, now: int, k: string)
    requires step.Stash? ==> step.key !in s && IsFreshRecord(step.record)
    requires step.StashIdempotent? ==> IsFreshRecord(step.record)
    requires k in Op(step, s, now).state && Op(step, s, now).state[k].status == Confirming
    ensures var p := Op(step, s, now).state[k];
            (k in s && s[k] == p) ||
            (step.Begin? && step.key == k && step.attemptId == p.attemptId && k in s && SameDraft(p, s[k]) && p.owner == step.owner)
  {
    OpActsExactly(step, s, now);
    if step.key == k && Op(step, s, now).changed { ActingMakes(step, s, now); }
  }

  lemma UpdateKeepsMatch(y: System, e: Event, limits: Limits, p: Proc)
    requires HistoryHolds(y, limits) && ValidStep(Disk(y), e.step) && ProcMatches(Disk(y), p)
    requires e.step.Begin? ==> e.step.attemptId != p.attemptId
    ensures ProcMatches(Disk(Updated(y, e, limits)), p)
  {
    var after := After(Disk(y), e, limits);
    if p.key in after && after[p.key].status == Confirming {
      AttemptAfter(Disk(y), e, limits, p.key);
      if p.key in Disk(y) && SameDraft(after[p.key], Disk(y)[p.key]) { SameDraftRestores(after[p.key], Disk(y)[p.key]); }
    }
  }

  lemma BegunMatches(y: System, pid: nat, e: Event, limits: Limits)
    requires HistoryHolds(y, limits) && Enabled(y, BeginConfirm(pid, e)) && ValidStep(Disk(y), e.step)
    ensures var z := Begun(y, pid, e, limits); z.states != [] && (pid in z.procs ==> ProcMatches(Disk(z), z.procs[pid]))
  {
    var z, k, s := Begun(y, pid, e, limits), e.step.key, Opened(Disk(y), e.now);
    SameDisk(z, Updated(y, e, limits));
    if pid in z.procs {
      BegunFromRecord(y, pid, e, limits);
      if k in Disk(z) && Disk(z)[k].status == Confirming {
        AttemptAfter(Disk(y), e, limits, k);
        OpeningKeepsDraft(Disk(y), e.now, k);
        SameDraftRestores(Disk(z)[k], s[k]);
      }
    }
  }

  lemma BegunFromRecord(y: System, pid: nat, e: Event, limits: Limits)
    requires y.states != [] && Enabled(y, BeginConfirm(pid, e)) && pid in Begun(y, pid, e, limits).procs
    ensures var s, p := Opened(Disk(y), e.now), Begun(y, pid, e, limits).procs[pid];
            && p.key == e.step.key && p.key in s && p.owner == e.step.owner == s[p.key].owner && p.attemptId == e.step.attemptId
            && Restore(s[p.key]) == Success(p.entry)
  {
  }

  lemma NextKeepsMatches(y: System, m: Move, limits: Limits)
    requires HistoryHolds(y, limits) && ProcsHold(y) && ProcsMatch(y) && Enabled(y, m)
    ensures Next(y, m, limits).states != [] && ProcsMatch(Next(y, m, limits))
  {
    var z, e := Next(y, m, limits), EventOf(y, m);
    NextHistory(y, m, limits);
    ProcsAfter(y, m, limits);
    if m.BeginConfirm? { BegunMatches(y, m.pid, m.e, limits); }
    forall q | q in z.procs ensures ProcMatches(Disk(z), z.procs[q]) {
      if q in y.procs && !(m.BeginConfirm? && q == m.pid) {
        assert ProcHolds(y, y.procs[q]) && ProcMatches(Disk(y), y.procs[q]);
        if e.Some? {
          UpdateKeepsMatch(y, e.value, limits, y.procs[q]);
          SameDisk(z, Updated(y, e.value, limits));
        } else {
          SameDisk(z, y);
        }
        MatchIgnoresPc(Disk(z), y.procs[q], z.procs[q]);
      }
    }
  }

  lemma MatchIgnoresPc(disk: State, p: Proc, q: Proc)
    requires ProcMatches(disk, p) && q == p.(pc := q.pc)
    ensures ProcMatches(disk, q)
  {
  }

  lemma NextKeepsInvariant(y: System, m: Move, limits: Limits)
    requires Invariant(y, limits) && Enabled(y, m)
    ensures Invariant(Next(y, m, limits), limits)
  {
    NextKeepsHistory(y, m, limits);
    NextKeepsProcs(y, m, limits);
    NextKeepsMatches(y, m, limits);
    NextKeepsAudited(y, m, limits);
    NextKeepsCalls(y, m, limits);
  }

  // ------------------------------------------------------------------ whole executions

  ghost predicate Initial(y: System) {
    |y.states| == 1 && y.events == [] && WellFormed(y.states[0]) && Exclusive(y.states[0]) &&
    ConfirmedAreAudited(y.states[0], y.audit) && y.procs == map[] && y.calls == {}
  }

  ghost predicate Execution(run: seq<System>, moves: seq<Move>, limits: Limits) {
    && |run| == |moves| + 1
    && Initial(run[0])
    && forall i :: 0 <= i < |moves| ==> Moves(run, moves, limits, i)
  }

  ghost predicate Goes(y: System, m: Move, z: System, limits: Limits) {
    y.states != [] && Enabled(y, m) && z == Next(y, m, limits)
  }

  ghost predicate Moves(run: seq<System>, moves: seq<Move>, limits: Limits, i: int)
    requires |run| == |moves| + 1 && 0 <= i < |moves|
  {
    Goes(run[i], moves[i], run[i + 1], limits)
  }

  lemma {:induction false} ExecutionKeepsInvariant(run: seq<System>, moves: seq<Move>, limits: Limits, n: nat)
    requires Execution(run, moves, limits) && n < |run|
    ensures Invariant(run[n], limits)
  {
    if n > 0 {
      ExecutionKeepsInvariant(run, moves, limits, n - 1);
      assert Moves(run, moves, limits, n - 1);
      NextKeepsInvariant(run[n - 1], moves[n - 1], limits);
    }
  }

  /** In every reachable state each confirmed preview has an audit record under its key that names its
      initiator, the user who confirmed it, its kind, failure and repository, and its result URL,
      however attempts interleave, fail or crash. */
  lemma ConfirmedImpliesAudited(run: seq<System>, moves: seq<Move>, limits: Limits, n: nat, k: string)
    requires Execution(run, moves, limits) && n < |run|
    requires run[n].states != [] && k in Disk(run[n]) && Disk(run[n])[k].status == Confirmed
    ensures k in run[n].audit && VouchesFor(run[n].audit[k], Disk(run[n])[k])
  {
    ExecutionKeepsInvariant(run, moves, limits, n);
  }

  lemma {:induction false} AuditIsPermanent(run: seq<System>, moves: seq<Move>, limits: Limits, m: nat, n: nat, id: string)
    requires Execution(run, moves, limits) && m <= n < |run|
    requires id in run[m].audit
    ensures id in run[n].audit && run[n].audit[id] == run[m].audit[id]
  {
    if m < n {
      AuditIsPermanent(run, moves, limits, m, n - 1, id);
      assert Moves(run, moves, limits, n - 1);
      AuditOnlyGrows(run[n - 1], moves[n - 1], limits);
    }
  }

  /** An attempt that may call confirmEntry has not done so before. */
  lemma EachAttemptWritesOnce(y: System, limits: Limits, pid: nat)
    requires Invariant(y, limits) && Enabled(y, CallWrite(pid))
    ensures forall c :: c in y.calls ==> c.beganAt != y.procs[pid].beganAt
    ensures |Next(y, CallWrite(pid), limits).calls| == |y.calls| + 1
  {
    assert ProcHolds(y, y.procs[pid]);
  }

  /** Two calls of confirmEntry for one action, anywhere in an execution, come from two different
      begins, and in between the earlier record was settled, its outcome was unknown for longer
      than the time to live, or a migrating update restarted it. */
  lemma WriteCallsAreSeparated(run: seq<System>, moves: seq<Move>, limits: Limits, n: nat, c: Call, d: Call, a: Action)
    requires Execution(run, moves, limits) && n < |run|
    requires c in run[n].calls && d in run[n].calls && c != d && c.beganAt <= d.beganAt
    requires c.action == Some(a) && d.action == Some(a)
    ensures |run[n].states| == |run[n].events| + 1 && c.beganAt < d.beganAt < |run[n].events|
    ensures Released(Marks(run[n].states, run[n].events, limits, c.key, a), c.beganAt, d.beganAt)
  {
    ExecutionKeepsInvariant(run, moves, limits, n);
    var y := run[n];
    assert BeganInHistory(y, limits, c.beganAt, c.key, c.action);
    assert BeganInHistory(y, limits, d.beganAt, d.key, d.action);
    WritesAreSeparated(y.states, y.events, limits, c.beganAt, d.beganAt, c.key, d.key, a);
  }

  /** Among current records, only a settlement or the time to live lies between two calls. */
  lemma CurrentCallsAreSeparated(run: seq<System>, moves: seq<Move>, limits: Limits, n: nat, c: Call, d: Call, a: Action)
    requires Execution(run, moves, limits) && n < |run|
    requires c in run[n].calls && d in run[n].calls && c != d && c.beganAt <= d.beganAt
    requires c.action == Some(a) && d.action == Some(a)
    requires run[n].states != [] && AllCurrent(run[n].states[0])
    requires forall e :: e in run[n].events ==> StoresCurrent(e.step)
    ensures |run[n].states| == |run[n].events| + 1 && c.beganAt < d.beganAt < |run[n].events|
    ensures ReleasedInTime(Marks(run[n].states, run[n].events, limits, c.key, a), c.beganAt, d.beganAt)
  {
    ExecutionKeepsInvariant(run, moves, limits, n);
    var y := run[n];
    assert BeganInHistory(y, limits, c.beganAt, c.key, c.action);
    assert BeganInHistory(y, limits, d.beganAt, d.key, d.action);
    CurrentWritesAreSeparated(y.states, y.events, limits, c.beganAt, d.beganAt, c.key, d.key, a);
  }

  /** Only the process whose attempt is current can finish or discard a preview: an update by any
      other leaves the opened record as it was, and no other process has that attempt. */
  lemma OnlyCurrentAttemptSettles(y: System, limits: Limits, pid: nat, step: Step, now: int, k: string)
    requires Invariant(y, limits) && pid in y.procs
    requires var p := y.procs[pid];
             step == Discard(p.key, p.owner, p.attemptId) ||
             (p.pc.Finishing? && step == Finish(p.key, p.owner, p.attemptId, p.pc.outcome))
    requires var s := Opened(Disk(y), now);
             k in s && (k !in Op(step, s, now).state || Op(step, s, now).state[k] != s[k])
    ensures var s := Opened(Disk(y), now);
            k == y.procs[pid].key && s[k].status == Confirming && s[k].attemptId == y.procs[pid].attemptId
    ensures forall q :: q in y.procs && q != pid ==> y.procs[q].attemptId != Opened(Disk(y), now)[k].attemptId
  {
    assert ProcHolds(y, y.procs[pid]);
    RunStaysExclusive(y.states, y.events, limits, |y.events|);
    OpenedKeepsInvariants(Disk(y), now);
    assert WellFormedRecord(Opened(Disk(y), now)[k]);
  }

  // ------------------------------------------------------------------ how an attempt ends

  /** A draft that is refused, or whose target has changed or gone, is discarded. */
  lemma RefusedDraftsAreDiscarded(y: System, pid: nat, limits: Limits)
    requires y.states != []
    ensures At(y, pid, Validating) ==> At(Next(y, Reject(pid), limits), pid, Discarding)
    ensures At(y, pid, Writing) ==> At(Next(y, WriteReturns(pid, WriteResult.TargetChanged), limits), pid, Discarding)
    ensures At(y, pid, Reconciling) ==> At(Next(y, ReconcileReturns(pid, Gone), limits), pid, Discarding)
  {
  }

  /** A reply with a URL is audited first, whatever else it says; one without, and a reconciliation
      that sees nothing, end the attempt with its outcome unknown. */
  lemma RepliesAreAuditedOrUnknown(y: System, pid: nat, limits: Limits, url: string, failed: bool)
    requires y.states != []
    ensures At(y, pid, Writing) && url != "" ==> At(Next(y, WriteReturns(pid, Returned(url, failed)), limits), pid, Recording(url))
    ensures At(y, pid, Writing) ==>
              At(Next(y, WriteReturns(pid, Returned("", failed)), limits), pid, Finishing(if failed then AttemptFailed else Url("")))
    ensures At(y, pid, Reconciling) ==> At(Next(y, ReconcileReturns(pid, Seen(url)), limits), pid, Recording(url))
    ensures At(y, pid, Reconciling) ==> At(Next(y, ReconcileReturns(pid, NotSeen), limits), pid, Finishing(AttemptFailed))
  {
  }

  /** Only a URL on record in the audit is passed to finish. */
  lemma OnlyAuditedUrlsFinish(y: System, pid: nat, limits: Limits, confirmedAt: int, loads: bool, write: WriteOutcome, url: string)
    requires y.states != [] && At(y, pid, Recording(url))
    ensures var p, z := y.procs[pid], Next(y, RecordWrite(pid, confirmedAt, loads, write), limits);
            var recorded := Recorded(y.audit, AuditEntry(p, url, confirmedAt), loads, write);
            && At(z, pid, Finishing(if recorded then Url(url) else AttemptFailed))
            && (recorded ==> p.key in z.audit && Vouches(z.audit[p.key], p.entry, p.owner, url))
  {
    if Recorded(y.audit, AuditEntry(y.procs[pid], url, confirmedAt), loads, write) {
      RecordIsRead(y.audit, AuditEntry(y.procs[pid], url, confirmedAt), loads, write);
    }
  }

  /** What the end of an attempt leaves of the preview, if the update is written while the attempt is
      current: nothing after a discard, and after a finish a confirmed record with the audited URL, or
      one of unknown outcome. */
  lemma EndingDecidesRecord(y: System, pid: nat, limits: Limits, now: int, write: WriteOutcome)
    requires y.states != [] && pid in y.procs
    requires HoldsAttempt(Disk(y), now, y.procs[pid].key, y.procs[pid].owner, y.procs[pid].attemptId)
    ensures var p := y.procs[pid];
            p.pc.Finishing? && (Disk(Next(y, FinishConfirm(pid, now, write), limits)) != Disk(y)) ==>
              var disk := Disk(Next(y, FinishConfirm(pid, now, write), limits));
              p.key in disk && SameDraft(disk[p.key], Disk(y)[p.key]) && NoAttempt(disk[p.key]) &&
              if p.pc.outcome.Url? && p.pc.outcome.url != "" then disk[p.key].status == Confirmed && disk[p.key].resultUrl == p.pc.outcome.url
              else disk[p.key].status == Unknown
    ensures y.procs[pid].pc == Discarding && (Disk(Next(y, DiscardConfirm(pid, now, write), limits)) != Disk(y)) ==>
              y.procs[pid].key !in Disk(Next(y, DiscardConfirm(pid, now, write), limits))
  {
    var p := y.procs[pid];
    if p.pc.Finishing? {
      var e := Event(Finish(p.key, p.owner, p.attemptId, p.pc.outcome), now, write);
      SameDisk(Next(y, FinishConfirm(pid, now, write), limits), Updated(y, e, limits));
      if After(Disk(y), e, limits) != Disk(y) { FinishSettlesRecord(Disk(y), e, limits, p.key); }
    }
    if p.pc == Discarding {
      var e := Event(Discard(p.key, p.owner, p.attemptId), now, write);
      SameDisk(Next(y, DiscardConfirm(pid, now, write), limits), Updated(y, e, limits));
      if After(Disk(y), e, limits) != Disk(y) { DiscardRemoves(Disk(y), e, limits, p.key); }
    }
  }

  lemma DiscardRemoves(disk: State, e: Event, limits: Limits, k: string)
    requires e.step.Discard? && e.step.key == k && HoldsAttempt(disk, e.now, k, e.step.owner, e.step.attemptId)
    requires After(disk, e, limits) != disk
    ensures k !in After(disk, e, limits)
  {
    var s := Opened(disk, e.now);
    HeldWhenOpened(disk, e.now, k, e.step.owner, e.step.attemptId);
    OpActsExactly(e.step, s, e.now);
    ActingMakes(e.step, s, e.now);
    PreviewFitting.CommitIsAllOrNothing(disk, e.now, Op(e.step, s, e.now), ProtectedKey(e.step), limits, e.write);
    PreviewFitting.FittingRemovesOldestPrefix(Op(e.step, s, e.now).state, ProtectedKey(e.step), limits);
  }

  // ------------------------------------------------------------------ two writers at once

  /** The confirmation of the issue at key k that began at update i. */
  function Writer(k: string, attemptId: string, i: nat, pc: Pc): Proc {
    Proc(k, "bob", Restore(Issue()).value, attemptId, false, i, pc)
  }

  function IssueCall(k: string, i: nat): Call {
    Call(i, k, Some(Action(IssueKind, "issue")))
  }

  function Start(f: string, k: string): System {
    System([Before(f, k)], [], map[], map[], {}, {})
  }

  function OneBegun(f: string, k: string): System {
    System([Before(f, k), Between(f, k)], [BeginIssue(k, "one", START)], map[],
           map[0 := Writer(k, "one", 0, Validating)], {"one"}, {})
  }

  function OneWriting(f: string, k: string): System {
    OneBegun(f, k).(procs := map[0 := Writer(k, "one", 0, Writing)], calls := {IssueCall(k, 0)})
  }

  function TwoBegun(f: string, k: string): System {
    System([Before(f, k), Between(f, k), map[k := Attempt("two", START + 1)]],
           [BeginIssue(k, "one", START), BeginIssue(k, "two", START + 1)], map[],
           map[0 := Writer(k, "one", 0, Writing), 1 := Writer(k, "two", 1, Validating)],
           {"one", "two"}, {IssueCall(k, 0)})
  }

  function TwoWriting(f: string, k: string): System {
    TwoBegun(f, k).(procs := map[0 := Writer(k, "one", 0, Writing), 1 := Writer(k, "two", 1, Writing)],
                    calls := {IssueCall(k, 0), IssueCall(k, 1)})
  }

  lemma FirstBegun(f: string, k: string)
    requires f != k
    ensures Goes(Start(f, k), BeginConfirm(0, BeginIssue(k, "one", START)), OneBegun(f, k), Roomy())
  {
    FirstWrite(f, k);
    FirstOpens(f, k);
    FirstBegins(f, k);
    assert Disk(Start(f, k)) == Before(f, k);
  }

  lemma SecondBegun(f: string, k: string)
    requires f != k
    ensures Goes(OneWriting(f, k), BeginConfirm(1, BeginIssue(k, "two", START + 1)), TwoBegun(f, k), Roomy())
  {
    SecondWrite(f, k);
    SecondOpens(f, k);
    SecondBegins(k);
    assert Disk(OneWriting(f, k)) == Between(f, k);
    assert Restore(Attempt("one", START)) == Restore(Issue());
  }

  lemma FirstCalls(f: string, k: string)
    ensures Goes(OneBegun(f, k), CallWrite(0), OneWriting(f, k), Roomy())
  {
  }

  lemma SecondCalls(f: string, k: string)
    ensures Goes(TwoBegun(f, k), CallWrite(1), TwoWriting(f, k), Roomy())
  {
  }

  /** An execution and one more move. */
  lemma ExecutionExtends(run: seq<System>, moves: seq<Move>, m: Move, z: System, limits: Limits)
    requires Execution(run, moves, limits) && Goes(run[|moves|], m, z, limits)
    ensures Execution(run + [z], moves + [m], limits)
  {
    var longer, more := run + [z], moves + [m];
    forall i | 0 <= i < |more| ensures Moves(longer, more, limits, i) {
      if i < |moves| { assert Moves(run, moves, limits, i); }
      assert longer[i] == run[i] && longer[i + 1] == (if i < |moves| then run[i + 1] else z);
    }
  }

  lemma StartIsInitial(f: string, k: string)
    requires f != k
    ensures Initial(Start(f, k))
  {
    BeforeIsReachable(f, k);
  }

  /** The guarantee needs current records: after a migrating load two processes are inside
      confirmEntry for one issue at once, a moment apart. */
  lemma MigrationMayCallTwice(f: string, k: string) returns (run: seq<System>, moves: seq<Move>)
    requires f != k
    ensures Execution(run, moves, Roomy()) && |run| == 5
    ensures At(run[4], 0, Writing) && At(run[4], 1, Writing)
    ensures IssueCall(k, 0) in run[4].calls && IssueCall(k, 1) in run[4].calls
    ensures |run[4].events| == 2 && run[4].events[1].now == run[4].events[0].now + 1
  {
    moves, run := [], [Start(f, k)];
    StartIsInitial(f, k);
    FirstBegun(f, k);
    moves, run := Extended(run, moves, BeginConfirm(0, BeginIssue(k, "one", START)), OneBegun(f, k));
    FirstCalls(f, k);
    moves, run := Extended(run, moves, CallWrite(0), OneWriting(f, k));
    SecondBegun(f, k);
    moves, run := Extended(run, moves, BeginConfirm(1, BeginIssue(k, "two", START + 1)), TwoBegun(f, k));
    SecondCalls(f, k);
    moves, run := Extended(run, moves, CallWrite(1), TwoWriting(f, k));
  }

  lemma Extended(run: seq<System>, moves: seq<Move>, m: Move, z: System) returns (more: seq<Move>, longer: seq<System>)
    requires Execution(run, moves, Roomy()) && Goes(run[|run| - 1], m, z, Roomy())
    ensures Execution(longer, more, Roomy()) && |longer| == |run| + 1 && longer[|run|] == z
  {
    more, longer := moves + [m], run + [z];
    ExecutionExtends(run, moves, m, z, Roomy());
  }
}
