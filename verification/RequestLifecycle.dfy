/** The life of an action request: what expiry, cleanup, generation, shutdown and recovery each make of
    it, and what admission asks of a new one. */
module RequestLifecycle {
  import opened Wrappers
  import opened Requests

  /** Whose request it is, for what, and of which kind; these never change. */
  predicate SameIdentity(r: Request, q: Request) {
    && r.owner == q.owner && r.failureId == q.failureId && r.kind == q.kind
    && r.requestHash == q.requestHash && r.replacementHash == q.replacementHash
  }

  /** Nothing of the draft, the user's words or the runtime work is left. */
  predicate IsBare(r: Request) {
    && r.preview.None? && r.issue.None? && r.fix.None? && r.baseIssue.None? && r.analysisInput.None?
    && r.instruction == "" && r.runtime.None? && r.cleanup.None? && r.emailError == ""
  }

  predicate SameDrafts(r: Request, q: Request) {
    && r.preview == q.preview && r.issue == q.issue && r.fix == q.fix && r.patternHash == q.patternHash
    && r.verificationVersion == q.verificationVersion && r.instruction == q.instruction
  }

  /** The operation touches at most this request in memory. */
  ghost predicate OnlyTouches(st: Store, after: Store, id: string) {
    forall k :: k != id ==> (k in after.mem <==> k in st.mem) && (k in st.mem ==> after.mem[k] == st.mem[k])
  }

  // ------------------------------------------------------------------ expiry

  /** A request is over after the instant it carries, and never without one. */
  lemma DueIsExact(r: Request, now: int)
    ensures IsDue(r, now) <==> match r.expiresAt case None => false case Some(end) => end < now
  {
  }

  /** One that may own runtime work goes into cleanup, with everything it needs for that; any other
      expires with nothing private left. */
  lemma ExpiredRecord(r: Request, now: int)
    ensures var q := ExpireRecord(r, now);
            && SameIdentity(q, r)
            && (r.status == Pending || r.status == Cancelling ==>
                  q.status == Cancelling && q.runtime == r.runtime && SameDrafts(q, r) && q.cleanup.Some? &&
                  q.cleanup.value.finalStatus == Some(Expired) && q.updatedAt == now)
            && (r.status != Pending && r.status != Cancelling ==>
                  q.status == Expired && IsBare(q) && q.error == "" && q.warning == "" && q.failure.None?)
            && q.expiresAt == r.expiresAt && q.resultUrl == r.resultUrl
  {
  }

  /** Expiry leaves alone what is not due or is being confirmed. */
  lemma ExpiryIsExact(m: RequestMap, confirming: set<string>, now: int, id: string)
    requires id in m
    ensures var q := ExpireAll(m, confirming, now);
            && q.Keys == m.Keys
            && (id in confirming || !IsDue(m[id], now) ==> q[id] == m[id])
            && (id !in confirming && IsDue(m[id], now) ==> q[id] == ExpireRecord(m[id], now))
    ensures IsDue(m[id], now) && ExpireRecord(m[id], now) != m[id] ==> ExpiryTouches(m[id], now)
  {
  }

  /** A prune drops nothing from up to 200 requests. From more it drops completed ones, none younger
      than a completed one it keeps, down to 200 or until none is left. */
  lemma PruningIsExact(m: RequestMap, dropped: set<string>)
    requires MayPrune(m, dropped)
    ensures |m| <= 200 ==> dropped == {}
    ensures |m| > 200 ==> |m - dropped| == 200 || (|m - dropped| > 200 && forall id :: id in m - dropped ==> IsWaitingOrReady(m[id]))
    ensures forall id :: id in dropped ==> id in m && !IsWaitingOrReady(m[id])
    ensures forall id, other :: id in dropped && other in m - dropped && !IsWaitingOrReady(m[other]) ==> m[id].updatedAt <= m[other].updatedAt
  {
    assert (m - dropped).Keys == m.Keys - dropped && |(m - dropped).Keys| == |m.Keys| - |dropped|;
  }

  /** Whatever expiry or pruning changed in memory is saved, and a save that fails is reported. */
  lemma ExpiryIsSaved(st: Store, confirming: set<string>, now: int, dropped: set<string>, write: WriteOutcome)
    requires dropped <= st.mem.Keys
    ensures var after := ExpireAndSave(st, confirming, now, dropped, write);
            && after.mem == ExpireAll(st.mem, confirming, now) - dropped && (after.disk == st.disk || after.disk == after.mem)
            && (after.mem != st.mem ==> after.disk == if write.Replaces() then after.mem else st.disk)
            && (after.mem != st.mem && write.WriteFailed? ==> ExpireFailed(st, confirming, now, dropped, write))
            && (ExpireFailed(st, confirming, now, dropped, write) ==> write.WriteFailed?)
  {
    var all := ExpireAll(st.mem, confirming, now);
    if dropped == {} && all != st.mem {
      var id :| id in st.mem && all[id] != st.mem[id];
      assert ExpiryTouches(st.mem[id], now);
    }
    assert dropped == {} ==> all - dropped == all;
  }

  predicate IsWaitingOrReady(r: Request) {
    r.status == Pending || r.status == Cancelling || r.status == Ready
  }

  // ------------------------------------------------------------------ cleanup

  /** Cancellation, supersession and timeouts put a pending or ready request into cleanup, saved; if
      the save fails, and for any other request, nothing changes in memory. */
  lemma CleanupStarts(st: Store, id: string, cleanup: Cleanup, now: int, write: WriteOutcome)
    ensures var after := CleanupTransition(st, id, cleanup, now, write);
            && OnlyTouches(st, after, id)
            && (id in st.mem && (st.mem[id].status == Pending || st.mem[id].status == Ready) && write.Written? ==>
                  && id in after.mem && after.disk == after.mem && after.mem[id].status == Cancelling
                  && after.mem[id].cleanup == Some(cleanup) && after.mem[id].runtime == st.mem[id].runtime
                  && SameIdentity(after.mem[id], st.mem[id]) && SameDrafts(after.mem[id], st.mem[id]))
            && (id !in st.mem || (st.mem[id].status != Pending && st.mem[id].status != Ready) || write.WriteFailed? ==> after.mem == st.mem)
            && (id !in st.mem || (st.mem[id].status != Pending && st.mem[id].status != Ready) ==> after == st)
  {
  }

  /** A blocked cleanup will end as failed, and says so; the work stays on record. */
  lemma BlockedRecord(st: Store, id: string, now: int, write: WriteOutcome)
    requires id in st.mem && st.mem[id].status == Cancelling && write.Written?
    ensures var after := MarkBlocked(st, id, now, write);
            && OnlyTouches(st, after, id) && id in after.mem && after.disk == after.mem
            && after.mem[id].status == Cancelling && after.mem[id].runtime == st.mem[id].runtime && SameIdentity(after.mem[id], st.mem[id])
            && after.mem[id].cleanup.Some? && after.mem[id].cleanup.value.finalStatus == Some(Failed)
            && (st.mem[id].kind == AnalysisFix <==> after.mem[id].cleanup.value.failure.Some?)
  {
  }

  /** A finalized request ends in the status its cleanup recorded, cancelled if it recorded none, with
      nothing private left; only a failed one keeps a reason. */
  lemma FinalizedRecord(st: Store, id: string, now: int, write: WriteOutcome)
    requires id in st.mem && st.mem[id].status == Cancelling && write.Written?
    ensures var r, after := st.mem[id], FinalizeCleanup(st, id, now, write);
            && OnlyTouches(st, after, id) && id in after.mem && after.disk == after.mem
            && var q := after.mem[id];
               && SameIdentity(q, r) && IsBare(q) && q.supersededBy == r.supersededBy
               && q.status == (if r.cleanup.Some? && r.cleanup.value.finalStatus.Some? then r.cleanup.value.finalStatus.value else Cancelled)
               && (if q.status == Failed then q.reasonCode != "" && q.error == r.cleanup.value.reason && q.failure == r.cleanup.value.failure
                   else q.error == "" && q.reasonCode == "" && q.failure.None? && q.warning == "")
  {
  }

  lemma UnfinalizedStays(st: Store, id: string, now: int, write: WriteOutcome)
    requires id !in st.mem || st.mem[id].status != Cancelling || write.WriteFailed?
    ensures FinalizeCleanup(st, id, now, write).mem == st.mem && MarkBlocked(st, id, now, write).mem == st.mem
  {
  }

  /** Shutdown puts exactly the pending requests into cleanup. */
  lemma ShutdownIsExact(st: Store, now: int, write: WriteOutcome, id: string)
    requires id in st.mem
    ensures var after := StopActive(st, now, write);
            && id in after.mem && SameIdentity(after.mem[id], st.mem[id])
            && (st.mem[id].status != Pending ==> after.mem[id] == st.mem[id])
            && (st.mem[id].status == Pending ==>
                  after.mem[id].status == Cancelling && after.mem[id].runtime == st.mem[id].runtime && after.mem[id].cleanup.Some? &&
                  after.mem[id].cleanup.value.finalStatus == Some(Failed) && (write.Written? ==> after.disk == after.mem))
  {
  }

  // ------------------------------------------------------------------ generation

  /** Reported work is on record, in memory and on disk, once it is accepted. */
  lemma WorkIsRecorded(st: Store, id: string, work: WorkRef, now: int, write: WriteOutcome)
    ensures var after := ObserveWork(st, id, work, now, write);
            && OnlyTouches(st, after, id)
            && (id in st.mem && (st.mem[id].status == Pending || st.mem[id].status == Cancelling) && write.Written? ==>
                  id in after.mem && after.disk == after.mem && after.mem[id].runtime == Some(work) &&
                  after.mem[id].status == st.mem[id].status && after.mem[id].cleanup == st.mem[id].cleanup)
            && (id !in st.mem || (st.mem[id].status != Pending && st.mem[id].status != Cancelling) || write.WriteFailed? ==> after.mem == st.mem)
  {
  }

  /** A generated draft makes a pending request ready: an analysis fix for fifteen more minutes and
      without the user's words, any other with the draft and what it was verified against. */
  lemma DraftMakesReady(st: Store, id: string, preview: DraftKind, draft: string, patternHash: string, version: int, now: int, write: WriteOutcome)
    requires id in st.mem && st.mem[id].status == Pending
    ensures var after := CompleteGeneration(st, id, Draft(preview, draft, patternHash, version), now, write);
            && OnlyTouches(st, after, id) && id in after.mem && (write.Written? ==> after.disk == after.mem)
            && var r, q := st.mem[id], after.mem[id];
               && SameIdentity(q, r) && q.status == Ready && q.preview == Some(preview) && q.reasonCode == "" && q.failure.None?
               && q.analysisInput.None? && q.baseIssue.None? && q.updatedAt == now
               && if r.kind == AnalysisFix then q.expiresAt == Some(now + 900) && q.instruction == "" && q.issue == r.issue && q.fix == r.fix
                  else q.expiresAt == r.expiresAt && q.patternHash == patternHash && q.verificationVersion == version &&
                       (preview == IssueDraft ==> q.issue == Some(draft) && q.fix == r.fix) && (preview != IssueDraft ==> q.fix == Some(draft) && q.issue == r.issue)
  {
  }

  /** Anything else makes it failed, with a code; only a rejected refinement keeps a preview. */
  lemma FailureMakesFailed(st: Store, id: string, g: Generated, now: int, write: WriteOutcome)
    requires id in st.mem && st.mem[id].status == Pending && !g.Draft?
    ensures var after := CompleteGeneration(st, id, g, now, write);
            && OnlyTouches(st, after, id) && id in after.mem
            && var r, q := st.mem[id], after.mem[id];
               && SameIdentity(q, r) && q.status == Failed && q.reasonCode == g.reasonCode && q.analysisInput.None? && q.baseIssue.None?
               && q.preview == (if g.Fallback? then Some(g.preview) else r.preview)
               && (g.Fallback? ==> q.warning != "") && (g.GenerationError? ==> q.error == g.reasonCode)
               && q.failure == if r.kind == AnalysisFix && g.GenerationError? then g.failure else None
  {
  }

  lemma LateResultIsDropped(st: Store, id: string, g: Generated, now: int, write: WriteOutcome)
    requires id !in st.mem || st.mem[id].status != Pending
    ensures CompleteGeneration(st, id, g, now, write) == st
  {
  }

  // ------------------------------------------------------------------ confirmation

  /** The mark is on disk before the call; a failed save takes it back in memory. */
  lemma MarkIsWrittenAhead(st: Store, id: string, now: int, write: WriteOutcome)
    requires id in st.mem && st.mem[id].status == Ready
    ensures var after := MarkUnknown(st, id, now, write);
            && OnlyTouches(st, after, id) && id in after.mem && SameIdentity(after.mem[id], st.mem[id]) && SameDrafts(after.mem[id], st.mem[id])
            && (write.Written? ==> after.disk == after.mem && after.mem[id].status == Unknown)
            && (write.WriteFailed? ==> after.mem[id].status == Ready)
  {
  }

  lemma OutcomeIsRecorded(st: Store, id: string, url: string, now: int, write: WriteOutcome)
    requires id in st.mem
    ensures var refused, done := ConfirmFailed(st, id, now, write), ConfirmSucceeded(st, id, url, now, write);
            && OnlyTouches(st, refused, id) && id in refused.mem && refused.mem[id] == st.mem[id].(status := Ready, updatedAt := now)
            && OnlyTouches(st, done, id) && id in done.mem && SameIdentity(done.mem[id], st.mem[id])
            && done.mem[id].status == Confirmed && done.mem[id].resultUrl == url
            && (write.Written? ==> refused.disk == refused.mem && done.disk == done.mem)
  {
  }

  // ------------------------------------------------------------------ admission

  predicate IsOpen(r: Request) {
    r.status == Pending || r.status == Cancelling || r.status == Ready || r.status == Unknown
  }

  function Waiting(m: RequestMap, owner: string): set<string> {
    set id | id in m && m[id].owner == owner && (m[id].status == Pending || m[id].status == Cancelling)
  }

  function Open(m: RequestMap): set<string> {
    set id | id in m && IsOpen(m[id])
  }

  /** The request asked for may be replaced: the caller's own, for the same failure, not being
      confirmed, and pending or ready. */
  predicate MayReplace(m: RequestMap, confirming: set<string>, input: CreateInput) {
    && input.supersedes in m && input.supersedes !in confirming
    && m[input.supersedes].owner == input.owner && m[input.supersedes].failureId == input.failureId
    && (m[input.supersedes].status == Pending || m[input.supersedes].status == Ready)
  }

  /** An open request of the same owner for the same thing in the same words; a ready one only while
      it is current. */
  predicate AsksTheSame(r: Request, input: CreateInput, matchesCurrent: Request -> bool) {
    && IsOpen(r) && r.owner == input.owner && r.failureId == input.failureId && r.kind == input.kind && r.instruction == input.instruction
    && (r.status == Ready ==> matchesCurrent(r))
  }

  /** Whose draft a refinement starts from. */
  predicate Refines(m: RequestMap, input: CreateInput) {
    && input.supersedes in m && input.kind == CreateIssue && input.instruction != ""
    && m[input.supersedes].kind == CreateIssue && m[input.supersedes].status == Ready && m[input.supersedes].issue.Some?
  }

  /** A new request is admitted exactly if what it replaces may be replaced, or nothing open asks the
      same; no write for its failure and kind, by anybody, is of unknown outcome; its owner has fewer
      than three waiting and there are fewer than fifty open, not counting the one replaced; and a
      refinement starts from a draft of the present failure. */
  lemma AdmissionIsExact(m: RequestMap, confirming: set<string>, input: CreateInput, matchesCurrent: Request -> bool)
    ensures Admits(m, confirming, input, matchesCurrent) <==>
              && (if input.supersedes != "" then MayReplace(m, confirming, input)
                  else forall id :: id in m ==> !AsksTheSame(m[id], input, matchesCurrent))
              && (forall id :: id in m && id != input.supersedes ==>
                    !(m[id].status == Unknown && m[id].failureId == input.failureId && m[id].kind == input.kind))
              && |Waiting(m, input.owner) - {input.supersedes}| < 3 && |Open(m) - {input.supersedes}| < 50
              && (input.supersedes != "" && Refines(m, input) ==> m[input.supersedes].patternHash == input.subjectHash && input.subjectHash != "")
  {
    SameQuestions(m, input, matchesCurrent);
    assert PendingIds(m, input.owner, input.supersedes) == Waiting(m, input.owner) - {input.supersedes};
    assert ActiveIds(m) == Open(m);
    assert NeedsBase(m, input) <==> Refines(m, input);
  }

  lemma SameQuestions(m: RequestMap, input: CreateInput, matchesCurrent: Request -> bool)
    ensures forall id :: id in m ==> (IsDuplicate(m[id], input, matchesCurrent) <==> AsksTheSame(m[id], input, matchesCurrent))
    ensures forall id :: id in m ==>
              (IsUnresolved(m[id], input) <==> m[id].status == Unknown && m[id].failureId == input.failureId && m[id].kind == input.kind)
  {
  }

  /** What a saved creation adds: one pending request of the caller, for a day; the one it replaces is
      in cleanup and names it, and a refinement carries the replaced draft. */
  lemma CreationAddsOne(st: Store, id: string, input: CreateInput, write: WriteOutcome)
    requires id !in st.mem && id != input.supersedes && write.Written?
    requires input.supersedes != "" ==> input.supersedes in st.mem
    ensures var after := CreateAdmitted(st, id, input, write);
            && after.disk == after.mem && id in after.mem
            && (forall k :: k != id && (k != input.supersedes || input.supersedes == "") ==>
                  (k in after.mem <==> k in st.mem) && (k in st.mem ==> after.mem[k] == st.mem[k]))
            && IsNewRequest(after.mem[id], input) && after.mem[id].requestHash == "" && after.mem[id].analysisInput.None?
            && after.mem[id].baseIssue == (if input.supersedes != "" && Refines(st.mem, input) then st.mem[input.supersedes].issue else None)
            && (input.supersedes != "" ==>
                  && input.supersedes in after.mem && IsReplacedBy(st.mem[input.supersedes], after.mem[input.supersedes], id))
  {
  }

  predicate IsNewRequest(r: Request, input: CreateInput) {
    && r.owner == input.owner && r.failureId == input.failureId && r.kind == input.kind && r.instruction == input.instruction
    && r.status == Pending && r.expiresAt == Some(input.now + 86_400) && r.updatedAt == input.now && IsUndrafted(r)
  }

  predicate IsUndrafted(r: Request) {
    && r.preview.None? && r.issue.None? && r.fix.None? && r.runtime.None? && r.cleanup.None?
    && r.resultUrl == "" && r.supersededBy == "" && r.error == "" && r.reasonCode == "" && r.warning == ""
  }

  predicate IsReplacedBy(r: Request, q: Request, id: string) {
    && SameIdentity(q, r) && SameDrafts(q, r) && q.runtime == r.runtime
    && q.status == Cancelling && q.supersededBy == id && q.cleanup.Some? && q.cleanup.value.finalStatus == Some(Cancelled)
  }

  /** A failed save leaves memory as it was. */
  lemma FailedCreationAddsNothing(st: Store, id: string, input: CreateInput, a: AnalysisInput, write: WriteOutcome)
    requires write.WriteFailed? && (input.supersedes != "" ==> input.supersedes in st.mem)
    ensures CreateAdmitted(st, id, input, write).mem == st.mem && CreateAnalysisAdmitted(st, id, a, write).mem == st.mem
  {
  }

  /** A failed fix of the caller whose failure showed that there is nothing to review. */
  predicate HadNoPatch(r: Request, a: AnalysisInput) {
    && r.owner == a.owner && r.kind == AnalysisFix && r.status == Failed && r.reasonCode == "no_reviewable_patch"
    && r.replacementHash == a.replacementHash
  }

  /** An analysis fix is admitted exactly if nothing open of the caller has its hash; it replaces a
      failed one of the caller that had no patch, with new words, or replaces none and there is none
      such; and the same two limits hold. */
  lemma AnalysisAdmissionIsExact(m: RequestMap, a: AnalysisInput)
    ensures AdmitsAnalysis(m, a) <==>
              && (forall id :: id in m ==> !(IsOpen(m[id]) && m[id].owner == a.owner && m[id].kind == AnalysisFix && m[id].requestHash == a.requestHash))
              && (if a.replacesId == "" then forall id :: id in m ==> !HadNoPatch(m[id], a)
                  else a.replacesId in m && HadNoPatch(m[a.replacesId], a) && m[a.replacesId].failure == Some("no_reviewable_patch") &&
                       a.instruction != "" && a.instruction != m[a.replacesId].instruction)
              && |Waiting(m, a.owner)| < 3 && |Open(m)| < 50
  {
    assert PendingIdsOf(m, a.owner) == Waiting(m, a.owner);
    assert ActiveIds(m) == Open(m);
  }

  lemma AnalysisCreationAddsOne(st: Store, id: string, a: AnalysisInput, write: WriteOutcome)
    requires id !in st.mem && write.Written?
    ensures var after := CreateAnalysisAdmitted(st, id, a, write);
            && after.disk == after.mem && id in after.mem && OnlyTouches(st, after, id)
            && var r := after.mem[id];
               && r.owner == a.owner && r.failureId == a.failureId && r.kind == AnalysisFix && r.instruction == a.instruction
               && r.requestHash == a.requestHash && r.replacementHash == a.replacementHash && r.analysisInput == Some(a.payload)
               && r.status == Pending && r.expiresAt == Some(a.now + 86_400) && r.updatedAt == a.now && IsUndrafted(r) && r.baseIssue.None?
  {
  }

  // ------------------------------------------------------------------ recovery

  predicate IsOutdatedFix(r: Request) {
    r.kind == ProposeFix && (r.verificationVersion != 5 || r.failureId == "" || r.patternHash == "")
  }

  /** A persisted draft is checked again: one that passes gets the preview it then has, */
  lemma PassingDraftIsKept(r: Request, checks: Revalidation, now: int)
    ensures r.status == Ready && !IsOutdatedFix(r) && checks.preview(r).Success? ==>
              RecoverDraft(r, checks, now) == r.(preview := Some(checks.preview(r).value))
    ensures r.status == Unknown ==>
              RecoverDraft(r, checks, now) == r.(preview := if checks.preview(r).Success? then Some(checks.preview(r).value) else None)
    ensures r.status != Ready && r.status != Unknown ==> RecoverDraft(r, checks, now) == r
  {
  }

  /** and a ready request whose draft fails, or whose fix is of another verification version than 5 or
      has lost its failure or pattern, fails without any draft. */
  lemma FailingDraftIsWithdrawn(r: Request, checks: Revalidation, now: int)
    requires r.status == Ready && (IsOutdatedFix(r) || checks.preview(r).Failure?)
    ensures var q := RecoverDraft(r, checks, now);
            && q.status == Failed && q.preview.None? && q.issue.None? && q.fix.None? && q.analysisInput.None? && q.updatedAt == now
            && SameIdentity(q, r) && q.runtime == r.runtime && q.expiresAt == r.expiresAt
            && (!IsOutdatedFix(r) ==> q.error == checks.preview(r).error && q.reasonCode == checks.preview(r).error && q.instruction == "")
            && (IsOutdatedFix(r) ==> q.reasonCode == "contract_generation_failed")
  {
  }

  /** A generation the restart cut short goes into cleanup if it had work, */
  lemma InterruptedWorkIsCleaned(r: Request, checks: Revalidation, now: int)
    ensures var q := RecoverInterrupted(r, checks, now);
            && (r.status == Pending && r.runtime.Some? ==>
                  q.status == Cancelling && q.runtime == r.runtime && q.cleanup.Some? && q.cleanup.value.finalStatus == Some(Failed) &&
                  SameIdentity(q, r))
            && (r.status == Cancelling && r.cleanup.Some? ==> q == r)
            && (r.status == Cancelling && r.cleanup.None? ==>
                  q.status == Cancelling && q.runtime == r.runtime && q.cleanup.Some? && q.cleanup.value.finalStatus == Some(Failed))
            && (r.status != Pending && r.status != Cancelling ==> q == r)
  {
  }

  /** and else fails, with the draft it was refining if that still passes. */
  lemma InterruptedDraftFails(r: Request, checks: Revalidation, now: int)
    requires r.status == Pending && r.runtime.None?
    ensures var q := RecoverInterrupted(r, checks, now);
            && q.status == Failed && SameIdentity(q, r) && q.baseIssue.None? && q.analysisInput.None? && q.updatedAt == now
            && (if r.baseIssue.Some? && checks.baseValid(r) then q.preview == Some(IssueDraft) && q.warning != "" && q.error == r.error
                else q.error != "" && q.reasonCode != "" && q.preview == r.preview && q.warning == r.warning)
  {
  }

  /** What is no draft is left to the second step, */
  lemma RecoveryOfOthers(r: Request, checks: Revalidation, now: int)
    requires r.status != Ready && r.status != Unknown
    ensures RecoverRecord(r, checks, now) == RecoverInterrupted(r, checks, now)
  {
    PassingDraftIsKept(r, checks, now);
  }

  /** and a draft is settled by the first. */
  lemma RecoveryOfDrafts(r: Request, checks: Revalidation, now: int)
    requires r.status == Ready || r.status == Unknown
    ensures RecoverRecord(r, checks, now) == RecoverDraft(r, checks, now)
  {
    var q := RecoverDraft(r, checks, now);
    assert q.status != Pending && q.status != Cancelling by {
      PassingDraftIsKept(r, checks, now);
      if r.status == Ready && (IsOutdatedFix(r) || checks.preview(r).Failure?) { FailingDraftIsWithdrawn(r, checks, now); }
    }
    InterruptedWorkIsCleaned(q, checks, now);
  }

  /** A start reads the file, or nothing if it cannot; expires, prunes and recovers; */
  lemma LoadedRequests(disk: RequestMap, readable: bool, checks: Revalidation, now: int, dropped: set<string>, write: WriteOutcome, id: string)
    ensures var st := Load(disk, readable, checks, now, dropped, write);
            && (id in st.mem <==> readable && id in disk && id !in dropped)
            && (id in st.mem ==>
                  st.mem[id] == RecoverRecord(if IsDue(disk[id], now) then ExpireRecord(disk[id], now) else disk[id], checks, now))
  {
  }

  /** and saves if any of that changed anything. */
  lemma LoadedFile(disk: RequestMap, readable: bool, checks: Revalidation, now: int, dropped: set<string>, write: WriteOutcome)
    ensures var st := Load(disk, readable, checks, now, dropped, write);
            (st.disk == disk || st.disk == st.mem) && (readable && write.Written? ==> st.disk == st.mem)
  {
  }

  // ------------------------------------------------------------------ notes

  /** A stage or a new warning is taken while the request is pending, the mail's fate once it is ready. */
  predicate IsTaken(m: RequestMap, id: string, note: Note) {
    id in m &&
    match note
    case StageNote => m[id].status == Pending
    case WarningNote(text) => m[id].status == Pending && m[id].warning != text
    case MailNote(_) => m[id].status == Ready
  }

  /** Apart from its warning, its mail error and its time of change, a request is as it was. */
  predicate SameButNotes(r: Request, q: Request) {
    q == r.(warning := q.warning, emailError := q.emailError, updatedAt := q.updatedAt)
  }

  predicate IsNoted(r: Request, q: Request, note: Note, now: int) {
    && SameButNotes(r, q) && q.updatedAt == now
    && q.warning == (if note.WarningNote? then note.text else r.warning)
    && q.emailError == (if note.MailNote? then note.error else r.emailError)
  }

  /** The map with this one request noted. */
  predicate NotesOne(m: RequestMap, after: RequestMap, id: string, note: Note, now: int)
    requires id in m
  {
    after.Keys == m.Keys && IsNoted(m[id], after[id], note, now) && forall k :: k in m && k != id ==> after[k] == m[k]
  }

  /** A note changes what it is about and nothing else. When it cannot be saved, a stage or a warning is
      taken back, while the mail's fate stays in memory. */
  lemma NoteIsExact(st: Store, id: string, note: Note, now: int, write: WriteOutcome)
    ensures var after := AddNote(st, id, note, now, write);
            if !IsTaken(st.mem, id, note) then after == st
            else
              && (if write.Written? || note.MailNote? then NotesOne(st.mem, after.mem, id, note, now) else after.mem == st.mem)
              && (if write.Replaces() then NotesOne(st.mem, after.disk, id, note, now) else after.disk == st.disk)
  {
  }
}
