/** The request server's own state and its critical sections: each method runs under the service
    lock. Clock readings, fresh ids, the fate of each save and the verdicts of external checks are
    arguments. */
module RequestService {
  import opened Wrappers
  import opened Requests
  import opened RequestAdmission

  datatype CreateOutcome = NewRequestId(id: string) | Existing(id: string) | Rejected | SaveError

  function CompletedIds(m: RequestMap): set<string> {
    set id | id in m && IsCompleted(m[id])
  }

  predicate IsOldest(m: RequestMap, ids: set<string>, id: string)
    requires ids <= m.Keys && id in m
  {
    forall other :: other in ids ==> m[id].updatedAt <= m[other].updatedAt
  }

  lemma OldestExists(m: RequestMap, ids: set<string>)
    requires ids <= m.Keys && ids != {}
    ensures exists id :: id in ids && IsOldest(m, ids, id)
    decreases ids
  {
    var id :| id in ids;
    if ids == {id} {
      assert IsOldest(m, ids, id);
    } else {
      OldestExists(m, ids - {id});
      var rest :| rest in ids - {id} && IsOldest(m, ids - {id}, rest);
      var oldest := if m[id].updatedAt <= m[rest].updatedAt then id else rest;
      assert IsOldest(m, ids, oldest);
    }
  }

  /** Everything dropped is completed and no younger than the completed requests that stay. */
  ghost predicate OldestDropped(m: RequestMap, dropped: set<string>) {
    dropped <= CompletedIds(m) && forall id :: id in dropped ==> IsOldest(m, CompletedIds(m) - dropped, id)
  }

  lemma DropOne(before: RequestMap, dropped: set<string>, id: string)
    requires OldestDropped(before, dropped)
    requires id in CompletedIds(before) - dropped && IsOldest(before, CompletedIds(before) - dropped, id)
    ensures (before - dropped) - {id} == before - (dropped + {id})
    ensures |(before - dropped) - {id}| == |before - dropped| - 1
    ensures |dropped + {id}| == |dropped| + 1
    ensures CompletedIds(before) - dropped - {id} == CompletedIds(before) - (dropped + {id})
    ensures OldestDropped(before, dropped + {id})
  {
    var m := before - dropped;
    assert (m - {id}).Keys == m.Keys - {id};
  }

  /** A map changed everywhere outside a set of keys. */
  ghost function Halfway<V>(before: map<string, V>, after: map<string, V>, keys: set<string>): map<string, V>
    requires before.Keys == after.Keys
  {
    map id | id in before :: if id in keys then before[id] else after[id]
  }

  lemma HalfwayOn<V>(before: map<string, V>, after: map<string, V>, keys: set<string>, id: string)
    requires before.Keys == after.Keys && id in keys && keys <= before.Keys
    ensures Halfway(before, after, keys)[id] == before[id]
    ensures Halfway(before, after, keys)[id := after[id]] == Halfway(before, after, keys - {id})
    ensures after[id] == before[id] ==> Halfway(before, after, keys) == Halfway(before, after, keys - {id})
  {
  }

  lemma StoppedStore(st: Store, now: int, any: bool, write: WriteOutcome)
    requires any == exists id :: id in st.mem && st.mem[id].status == Pending
    ensures var stopped := st.(mem := StopAll(st.mem, now));
            Requests.StopActive(st, now, write) == if any then Save(stopped, write) else stopped
  {
    if !any { assert StopAll(st.mem, now) == st.mem; }
  }

  /** Taking one id out of the uncounted ones counts it exactly if it belongs to the set. */
  lemma CountOne(all: set<string>, uncounted: set<string>, id: string)
    requires id in uncounted
    ensures |all - (uncounted - {id})| == |all - uncounted| + (if id in all then 1 else 0)
  {
    assert all - (uncounted - {id}) == (all - uncounted) + (if id in all then {id} else {});
  }

  /** The part of m whose keys are outside a set. */
  function Kept(m: RequestMap, keys: set<string>): RequestMap {
    map id | id in m && id !in keys :: m[id]
  }

  /** What CreateRequest leaves once expiry has run. */
  function CreatedStore(st: Store, confirming: set<string>, id: string, input: CreateInput, matchesCurrent: Request -> bool,
                        write: WriteOutcome): Store {
    if Admits(st.mem, confirming, input, matchesCurrent) then CreateAdmitted(st, id, input, write) else st
  }

  /** The checks of the creation method, one after the other, amount to admission. */
  lemma AdmittedOnce(m: RequestMap, confirming: set<string>, input: CreateInput, matchesCurrent: Request -> bool)
    requires input.supersedes != "" ==> Supersedable(m, confirming, input)
    requires forall id :: id in m ==> !IsBlocking(m, id, input, matchesCurrent)
    ensures PendingIds(m, input.owner, input.supersedes) == PendingIdsOf(m, input.owner) - {input.supersedes}
    ensures Admits(m, confirming, input, matchesCurrent) <==>
              (|PendingIdsOf(m, input.owner) - {input.supersedes}| < MAX_PENDING_PER_OWNER &&
               |ActiveIds(m) - {input.supersedes}| < MAX_ACTIVE_REQUESTS &&
               (input.supersedes != "" && NeedsBase(m, input) ==>
                  m[input.supersedes].patternHash != "" && m[input.supersedes].patternHash == input.subjectHash))
  {
    forall id | id in m ensures !(input.supersedes == "" && IsDuplicate(m[id], input, matchesCurrent)) {
      assert !IsBlocking(m, id, input, matchesCurrent);
    }
    forall id | id in m && id != input.supersedes ensures !IsUnresolved(m[id], input) {
      assert !IsBlocking(m, id, input, matchesCurrent);
    }
    assert PendingIds(m, input.owner, input.supersedes) == PendingIdsOf(m, input.owner) - {input.supersedes};
  }

  /** One blocking request is enough to refuse. */
  lemma BlockedNotAdmitted(m: RequestMap, confirming: set<string>, id: string, input: CreateInput, matchesCurrent: Request -> bool)
    requires id in m && IsBlocking(m, id, input, matchesCurrent)
    ensures !Admits(m, confirming, input, matchesCurrent)
  {
  }

  /** No duplicate, and either a proper replacement or nothing that must be replaced explicitly. */
  predicate AnalysisUnblocked(m: RequestMap, a: AnalysisInput) {
    && (forall id :: id in m ==> !IsAnalysisDuplicate(m[id], a))
    && (a.replacesId != "" ==> Replaceable(m, a))
    && (a.replacesId == "" ==> forall id :: id in m ==> !NeedsExplicitRegeneration(m[id], a))
  }

  lemma AnalysisAdmittedOnce(m: RequestMap, a: AnalysisInput)
    ensures AdmitsAnalysis(m, a) <==>
              (AnalysisUnblocked(m, a) && |PendingIdsOf(m, a.owner) - {}| < MAX_PENDING_PER_OWNER &&
               |ActiveIds(m) - {}| < MAX_ACTIVE_REQUESTS)
  {
    assert PendingIdsOf(m, a.owner) - {} == PendingIdsOf(m, a.owner) && ActiveIds(m) - {} == ActiveIds(m);
  }

  function CreatedAnalysisStore(st: Store, id: string, a: AnalysisInput, write: WriteOutcome): Store {
    if AdmitsAnalysis(st.mem, a) then CreateAnalysisAdmitted(st, id, a, write) else st
  }

  /** A load saves exactly when expiry or recovery changed something. */
  lemma LoadedStore(disk: RequestMap, file: RequestMap, expired: RequestMap, readable: bool, checks: Revalidation, now: int,
                    dropped: set<string>, write: WriteOutcome)
    requires file == (if readable then disk else map[])
    requires expired == ExpireAll(file, {}, now) - dropped
    ensures var mem := RecoverAll(expired, checks, now);
            Load(disk, readable, checks, now, dropped, write) ==
            if ExpiryChanges(file, {}, now) || dropped != {} || exists id :: id in expired && mem[id] != expired[id]
            then Save(Store(mem, disk), write) else Store(mem, disk)
  {
    UntouchedByExpiry(file, dropped, now);
  }

  lemma UntouchedByExpiry(file: RequestMap, dropped: set<string>, now: int)
    ensures !ExpiryChanges(file, {}, now) && dropped == {} ==> ExpireAll(file, {}, now) - dropped == file
  {
    if !ExpiryChanges(file, {}, now) && dropped == {} {
      forall id | id in file ensures ExpireAll(file, {}, now)[id] == file[id] {
        assert !ExpiryTouches(file[id], now);
      }
    }
  }

  predicate IsBlocking(m: RequestMap, id: string, input: CreateInput, matchesCurrent: Request -> bool)
    requires id in m
  {
    || (input.supersedes == "" && IsDuplicate(m[id], input, matchesCurrent))
    || (id != input.supersedes && IsUnresolved(m[id], input))
  }

  class Service {
    var requests: RequestMap
    var disk: RequestMap
    var confirms: set<string>
    var stopping: bool

    ghost function St(): Store
      reads this
    {
      Store(requests, disk)
    }

    method Save(write: WriteOutcome) returns (ok: bool)
      modifies this`disk
      ensures St() == Requests.Save(old(St()), write) && ok == write.Written?
    {
      if write.Replaces() { disk := requests; }
      ok := write.Written?;
    }

    // ---------------------------------------------------------------- expiry

    method ExpireLocked(now: int) returns (changed: bool, ghost dropped: set<string>)
      modifies this`requests
      ensures MayPrune(ExpireAll(old(requests), confirms, now), dropped)
      ensures St() == Expire(old(St()), confirms, now, dropped)
      ensures changed == ExpireChanged(old(St()), confirms, now, dropped)
    {
      changed := ExpireDue(now);
      var pruned: bool;
      pruned, dropped := Prune();
      changed := changed || pruned;
    }

    /** The first loop of expireRequestsLocked. */
    method ExpireDue(now: int) returns (changed: bool)
      modifies this`requests
      ensures requests == ExpireAll(old(requests), confirms, now)
      ensures changed == ExpiryChanges(old(requests), confirms, now)
    {
      changed := false;
      ghost var before, after := requests, ExpireAll(requests, confirms, now);
      var keys := requests.Keys;
      while keys != {}
        invariant keys <= before.Keys
        invariant requests == Halfway(before, after, keys)
        invariant changed == exists id :: id in before - keys && id !in confirms && ExpiryTouches(before[id], now)
        decreases keys
      {
        var id :| id in keys;
        HalfwayOn(before, after, keys, id);
        keys := keys - {id};
        if id in confirms { continue; }
        if requests[id].expiresAt.None? || !(now > requests[id].expiresAt.value) { continue; }
        var expired, touched := ExpireOne(requests[id], now);
        requests := requests[id := expired];
        changed := changed || touched;
      }
      assert requests == after;
    }

    static method ExpireOne(due: Request, now: int) returns (request: Request, changed: bool)
      requires IsDue(due, now)
      ensures request == ExpireRecord(due, now) && changed == ExpiryTouches(due, now)
    {
      request, changed := due, false;
      if request.status == Pending || request.status == Cancelling {
        request := request.(status := Cancelling);
        request := request.(cleanup := Some(Cleanup(Some(Expired), "action request expired during runtime cleanup", "", None)));
        return request.(updatedAt := now), true;
      }
      if request.status != Expired {
        request, changed := request.(status := Expired, updatedAt := now), true;
      }
      if Wiped(request) != request {
        request, changed := Wiped(request), true;
      }
    }

    /** The second loop of expireRequestsLocked: past the limit, drop completed requests, oldest
        first. */
    method Prune() returns (changed: bool, ghost dropped: set<string>)
      modifies this`requests
      ensures MayPrune(old(requests), dropped) && requests == old(requests) - dropped
      ensures changed == (dropped != {})
    {
      changed, dropped := false, {};
      ghost var before := requests;
      assert before - {} == before;
      if |requests| <= MAX_KEPT_REQUESTS { return; }
      var completed := CompletedIds(requests);
      while |requests| > MAX_KEPT_REQUESTS && completed != {}
        invariant requests == before - dropped && completed == CompletedIds(before) - dropped
        invariant OldestDropped(before, dropped) && |requests| == |before| - |dropped|
        invariant dropped == {} || |requests| >= MAX_KEPT_REQUESTS
        invariant changed == (dropped != {})
        decreases completed
      {
        OldestExists(requests, completed);
        var oldest :| oldest in completed && IsOldest(requests, completed, oldest);
        DropOne(before, dropped, oldest);
        requests, completed := requests - {oldest}, completed - {oldest};
        changed, dropped := true, dropped + {oldest};
      }
    }

    /** Expire, and save if anything changed; a failed save ends the caller with an error. */
    method Refresh(now: int, write: WriteOutcome) returns (ok: bool, ghost dropped: set<string>)
      modifies this`requests, this`disk
      ensures MayPrune(ExpireAll(old(requests), confirms, now), dropped)
      ensures St() == ExpireAndSave(old(St()), confirms, now, dropped, write)
      ensures ok == !ExpireFailed(old(St()), confirms, now, dropped, write)
    {
      var changed: bool;
      changed, dropped := ExpireLocked(now);
      ok := true;
      if changed { ok := Save(write); }
    }

    // ---------------------------------------------------------------- generation

    method ObserveWork(id: string, work: WorkRef, now: int, write: WriteOutcome) returns (accepted: bool)
      modifies this`requests, this`disk
      ensures St() == Requests.ObserveWork(old(St()), id, work, now, write)
      ensures accepted == (AcceptsWork(old(requests), id) && write.Written?)
    {
      if id !in requests || (requests[id].status != Pending && requests[id].status != Cancelling) { return false; }
      var previous := requests[id];
      requests := requests[id := previous.(runtime := Some(work), updatedAt := now)];
      var ok := Save(write);
      if !ok {
        requests := requests[id := requests[id].(runtime := previous.runtime, updatedAt := previous.updatedAt)];
        assert requests == old(requests);
      }
      return ok;
    }

    /** setRequestStage, setRequestWarning, setRequestVerification and the end of notifyRequestReady. */
    method AddNote(id: string, note: Note, now: int, write: WriteOutcome) returns (ok: bool)
      modifies this`requests, this`disk
      ensures St() == Requests.AddNote(old(St()), id, note, now, write)
      ensures ok == (TakesNote(old(requests), id, note) ==> write.Written?)
    {
      if id !in requests { return true; }
      var previous := requests[id];
      var request := previous;
      match note {
        case StageNote => if request.status != Pending { return true; }
        case WarningNote(text) =>
          if request.status != Pending || text == request.warning { return true; }
          request := request.(warning := text);
        case MailNote(error) =>
          if request.status != Ready { return true; }
          request := request.(emailError := error);
      }
      requests := requests[id := request.(updatedAt := now)];
      ok := Save(write);
      if !ok && !note.MailNote? {
        requests := requests[id := requests[id].(warning := previous.warning, updatedAt := previous.updatedAt)];
        assert requests == old(requests);
      }
    }

    method CompleteGeneration(id: string, result: Generated, now: int, write: WriteOutcome)
      modifies this`requests, this`disk
      ensures St() == Requests.CompleteGeneration(old(St()), id, result, now, write)
    {
      if id !in requests || requests[id].status != Pending { return; }
      var request := requests[id].(updatedAt := now, baseIssue := None, analysisInput := None);
      var analysis := request.kind == AnalysisFix;
      match result {
        case GenerationError(code, failure) =>
          request := request.(status := Failed, reasonCode := code, error := code);
          request := request.(failure := if analysis then failure else None);
        case Fallback(preview, code) =>
          request := request.(status := Failed, reasonCode := code, failure := None);
          request := request.(warning := "draft refinement rejected", preview := Some(preview));
        case Draft(preview, draft, hash, version) =>
          request := request.(status := Ready, reasonCode := "", failure := None, preview := Some(preview));
          if analysis {
            request := request.(expiresAt := Some(now + ANALYSIS_PREVIEW_TTL), instruction := "");
          } else {
            request := request.(verificationVersion := version, patternHash := hash);
            if preview == IssueDraft { request := request.(issue := Some(draft)); } else { request := request.(fix := Some(draft)); }
          }
      }
      requests := requests[id := request];
      var _ := Save(write);
    }

    // ---------------------------------------------------------------- cleanup

    method TransitionToCleanup(id: string, cleanup: Cleanup, now: int, write: WriteOutcome) returns (ok: bool)
      modifies this`requests, this`disk
      ensures St() == CleanupTransition(old(St()), id, cleanup, now, write)
      ensures ok ==> id in requests && (requests[id].status == Cancelling || requests[id].status == Cancelled)
    {
      if id !in requests { return false; }
      if requests[id].status == Cancelling || requests[id].status == Cancelled { return true; }
      if requests[id].status != Pending && requests[id].status != Ready { return false; }
      var previous := requests[id];
      requests := requests[id := previous.(status := Cancelling, cleanup := Some(cleanup), updatedAt := now)];
      ok := Save(write);
      if !ok {
        requests := requests[id := previous];
        assert requests == old(requests);
      }
    }

    method MarkCleanupBlocked(id: string, now: int, write: WriteOutcome) returns (settled: bool)
      modifies this`requests, this`disk
      ensures St() == MarkBlocked(old(St()), id, now, write)
      ensures settled == (write.Written? || id !in old(requests) || old(requests)[id].status != Cancelling)
    {
      if id !in requests || requests[id].status != Cancelling { return true; }
      var previous := requests[id];
      requests := requests[id := previous.(cleanup := Some(BlockedCleanup(previous)), updatedAt := now)];
      settled := Save(write);
      if !settled {
        requests := requests[id := previous];
        assert requests == old(requests);
      }
    }

    method FinalizeCleanup(id: string, now: int, write: WriteOutcome) returns (ok: bool)
      modifies this`requests, this`disk
      ensures St() == Requests.FinalizeCleanup(old(St()), id, now, write)
      ensures ok ==> id in requests && requests[id].status != Cancelling
    {
      if id !in requests { return false; }
      if requests[id].status != Cancelling { return true; }
      var request := requests[id];
      var final: Status, reason, code, failure := Cancelled, "", "", None;
      if request.cleanup.Some? {
        var cleanup := request.cleanup.value;
        if cleanup.finalStatus.Some? { final := cleanup.finalStatus.value; }
        reason, code, failure := cleanup.reason, cleanup.reasonCode, cleanup.failure;
      }
      var previous := request;
      request := request.(status := final, updatedAt := now);
      if final != Failed || request.kind != AnalysisFix { request := request.(warning := ""); }
      request := request.(preview := None, instruction := "", analysisInput := None, issue := None, fix := None,
                          baseIssue := None, runtime := None, cleanup := None, emailError := "");
      if final == Failed {
        request := request.(error := reason, reasonCode := "generation_failed", failure := failure);
        if code != "" { request := request.(reasonCode := code); }
      } else {
        request := request.(error := "", reasonCode := "", failure := None);
      }
      requests := requests[id := request];
      ok := Save(write);
      if !ok {
        requests := requests[id := previous];
        assert requests == old(requests);
      }
    }

    /** Shutdown: every pending request goes into cleanup; a failed save is only logged. */
    method StopActive(now: int, write: WriteOutcome)
      modifies this
      ensures St() == Requests.StopActive(old(St()), now, write) && stopping && confirms == old(confirms)
    {
      stopping := true;
      ghost var before := requests;
      var any := StopPending(now);
      StoppedStore(Store(before, disk), now, any, write);
      if any { var _ := Save(write); }
    }

    method StopPending(now: int) returns (any: bool)
      modifies this`requests
      ensures requests == StopAll(old(requests), now)
      ensures any == exists id :: id in old(requests) && old(requests)[id].status == Pending
    {
      any := false;
      ghost var before, after := requests, StopAll(requests, now);
      var keys := requests.Keys;
      while keys != {}
        invariant keys <= before.Keys && requests == Halfway(before, after, keys)
        invariant any == exists id :: id in before - keys && before[id].status == Pending
        decreases keys
      {
        var id :| id in keys;
        HalfwayOn(before, after, keys, id);
        keys := keys - {id};
        if requests[id].status != Pending { continue; }
        requests := requests[id := StopOne(requests[id], now)];
        any := true;
      }
      assert requests == after;
    }

    static function StopOne(r: Request, now: int): (stopped: Request)
      requires r.status == Pending
      ensures stopped == Stopped(r, now)
    {
      var cancelling := r.(status := Cancelling);
      var cleaned := cancelling.(cleanup := Some(Cleanup(Some(Failed), "server stopped before draft generation completed", "", None)));
      cleaned.(updatedAt := now)
    }

    // ---------------------------------------------------------------- confirmation

    /** The first critical section of ConfirmRequest. */
    method ConfirmEnter(id: string, owner: string, checks: ConfirmChecks, now: int, expireWrite: WriteOutcome, write: WriteOutcome)
      returns (verdict: ConfirmVerdict, ghost dropped: set<string>)
      modifies this`requests, this`disk, this`confirms
      ensures MayPrune(ExpireAll(old(requests), old(confirms), now), dropped)
      ensures var st := ExpireAndSave(old(St()), old(confirms), now, dropped, expireWrite);
              if ExpireFailed(old(St()), old(confirms), now, dropped, expireWrite)
              then St() == st && verdict == Refuse && confirms == old(confirms)
              else
                var v := ConfirmVerdictFor(st.mem, id, owner, id in old(confirms), checks);
                if v == WriteMarked && id in st.mem then
                  St() == MarkUnknown(st, id, now, write) &&
                  verdict == (if write.Written? then WriteMarked else Refuse) &&
                  confirms == (if write.Written? then old(confirms) + {id} else old(confirms))
                else
                  St() == st && verdict == v && v != WriteMarked &&
                  confirms == (if v == Reconcile || v == WriteUnmarked then old(confirms) + {id} else old(confirms))
      ensures AnswersOwner(ExpireAndSave(old(St()), old(confirms), now, dropped, expireWrite).mem, id, owner, id in old(confirms), checks,
                           verdict, expireWrite.Written? && write.Written?)
    {
      var ok: bool;
      ok, dropped := Refresh(now, expireWrite);
      VerdictIsExact(requests, id, owner, id in confirms, checks);
      if !ok { return Refuse, dropped; }
      if id !in requests || requests[id].owner != owner { return Refuse, dropped; }
      var request := requests[id];
      if request.kind == ProposeFix && !checks.fixActionsEnabled { return Refuse, dropped; }
      if request.status == Confirmed && request.resultUrl != "" { return AlreadyConfirmed(request.resultUrl), dropped; }
      if request.status != Ready && request.status != Unknown { return Refuse, dropped; }
      var reconcileOnly := request.status == Unknown;
      if id in confirms { return Refuse, dropped; }
      var entryKind := EntryKind(request);
      if entryKind.None? { return Refuse, dropped; }
      match entryKind.value {
        case IssueDraft => if request.issue.None? { return Refuse, dropped; }
        case FixDraft => if request.fix.None? { return Refuse, dropped; }
        case OtherDraft => return Refuse, dropped;
      }
      if !reconcileOnly && entryKind.value == FixDraft &&
         (request.verificationVersion != SOURCE_VERIFICATION_VERSION || request.failureId == "" || request.patternHash == "") {
        return Refuse, dropped;
      }
      if !reconcileOnly && !checks.previewValid { return Refuse, dropped; }
      if !reconcileOnly && request.failureId != "" {
        if !checks.snapshotCurrent { return Refuse, dropped; }
        requests := requests[id := request.(status := Unknown, updatedAt := now)];
        ok := Save(write);
        if !ok {
          requests := requests[id := requests[id].(status := Ready)];
          return Refuse, dropped;
        }
      }
      confirms := confirms + {id};
      verdict := if reconcileOnly then Reconcile else if request.failureId != "" then WriteMarked else WriteUnmarked;
    }

    /** confirmEntry returned a definite error: the request may be confirmed again. */
    method ConfirmRefused(id: string, now: int, write: WriteOutcome)
      modifies this`requests, this`disk
      ensures St() == ConfirmFailed(old(St()), id, now, write)
    {
      if id in requests {
        requests := requests[id := requests[id].(status := Ready, updatedAt := now)];
        var _ := Save(write);
      }
    }

    method ConfirmWritten(id: string, url: string, now: int, write: WriteOutcome) returns (ok: bool)
      modifies this`requests, this`disk
      ensures St() == ConfirmSucceeded(old(St()), id, url, now, write)
    {
      ok := true;
      if id in requests {
        requests := requests[id := requests[id].(status := Confirmed, resultUrl := url, updatedAt := now)];
        assert requests == SetStatus(old(requests), id, Confirmed, now)[id := old(requests)[id].(status := Confirmed, updatedAt := now, resultUrl := url)];
        ok := Save(write);
      }
    }

    method ConfirmLeave(id: string)
      modifies this`confirms
      ensures confirms == old(confirms) - {id}
    {
      confirms := confirms - {id};
    }

    // ---------------------------------------------------------------- creation

    /** How many requests an owner has in pending or cleanup, and how many are active, not counting
        the exempt ones. */
    method Count(owner: string, exempt: set<string>) returns (pending: nat, active: nat)
      ensures pending == |PendingIdsOf(requests, owner) - exempt|
      ensures active == |ActiveIds(requests) - exempt|
    {
      pending, active := 0, 0;
      var keys := requests.Keys;
      ghost var waiting, open := PendingIdsOf(requests, owner) - exempt, ActiveIds(requests) - exempt;
      while keys != {}
        invariant keys <= requests.Keys
        invariant pending == |waiting - keys| && active == |open - keys|
        decreases keys
      {
        var id :| id in keys;
        CountOne(waiting, keys, id);
        CountOne(open, keys, id);
        keys := keys - {id};
        if id in exempt { continue; }
        var status := requests[id].status;
        if (status == Pending || status == Cancelling) && requests[id].owner == owner { pending := pending + 1; }
        if IsActive(status) { active := active + 1; }
      }
    }

    /** An open duplicate, or an unresolved write for the same failure and kind, if there is one. */
    method FindBlocking(input: CreateInput, matchesCurrent: Request -> bool) returns (found: Option<string>)
      ensures found.Some? ==> found.value in requests
      ensures found.Some? ==> IsBlocking(requests, found.value, input, matchesCurrent)
      ensures found.None? ==> forall id :: id in requests ==> !IsBlocking(requests, id, input, matchesCurrent)
    {
      var keys := requests.Keys;
      if input.supersedes == "" {
        while keys != {}
          invariant keys <= requests.Keys
          invariant forall id :: id in requests && id !in keys ==> !IsDuplicate(requests[id], input, matchesCurrent)
          decreases keys
        {
          var id :| id in keys;
          keys := keys - {id};
          var existing := requests[id];
          if existing.owner != input.owner || existing.failureId != input.failureId || existing.kind != input.kind ||
             existing.instruction != input.instruction {
            continue;
          }
          if existing.status == Ready && !matchesCurrent(existing) { continue; }
          if IsActive(existing.status) { return Some(id); }
        }
      }
      keys := requests.Keys;
      while keys != {}
        invariant keys <= requests.Keys
        invariant forall id :: id in requests && id !in keys && id != input.supersedes ==> !IsUnresolved(requests[id], input)
        decreases keys
      {
        var id :| id in keys;
        keys := keys - {id};
        var existing := requests[id];
        if id == input.supersedes || existing.status != Unknown || existing.failureId != input.failureId || existing.kind != input.kind {
          continue;
        }
        return Some(id);
      }
      found := None;
    }

    /** The checks of CreateRequest on the request to be superseded. */
    method MaySupersede(input: CreateInput) returns (ok: bool)
      ensures ok == Supersedable(requests, confirms, input)
    {
      if input.supersedes !in requests || requests[input.supersedes].owner != input.owner { return false; }
      if requests[input.supersedes].failureId != input.failureId { return false; }
      if input.supersedes in confirms { return false; }
      return requests[input.supersedes].status == Pending || requests[input.supersedes].status == Ready;
    }

    /** Insert the new request, put the superseded one in cleanup, save, and undo both if that fails. */
    method Install(input: CreateInput, id: string, write: WriteOutcome) returns (ok: bool)
      requires id !in requests && id != input.supersedes
      requires input.supersedes != "" ==> input.supersedes in requests
      modifies this`requests, this`disk
      ensures St() == CreateAdmitted(old(St()), id, input, write) && ok == write.Written?
    {
      ghost var before := requests;
      var request := NewRequest(input, None);
      var superseded := request;
      if input.supersedes != "" {
        superseded := requests[input.supersedes];
        if NeedsBase(requests, input) { request := request.(baseIssue := superseded.issue); }
        requests := requests[input.supersedes := SupersededRecord(superseded, id, input.now)];
      }
      requests := requests[id := request];
      assert requests == WithNew(before, id, input);
      ok := Save(write);
      if !ok {
        requests := requests - {id};
        if input.supersedes != "" {
          requests := requests[input.supersedes := requests[input.supersedes].(
            status := superseded.status, updatedAt := superseded.updatedAt, supersededBy := superseded.supersededBy,
            cleanup := superseded.cleanup)];
        }
        assert requests == before;
      }
    }

    /** The checks of CreateRequest on the map it finds after expiry: why it admits no new request. */
    method AdmissionVerdict(input: CreateInput, matchesCurrent: Request -> bool) returns (refusal: Option<CreateOutcome>)
      ensures refusal.None? <==> Admits(requests, confirms, input, matchesCurrent)
      ensures refusal.None? || refusal == Some(Rejected) || refusal.value.Existing?
      ensures refusal.Some? && refusal.value.Existing? ==>
                && refusal.value.id in requests && requests[refusal.value.id].owner == input.owner
                && IsBlocking(requests, refusal.value.id, input, matchesCurrent)
    {
      if input.supersedes != "" {
        var ok := MaySupersede(input);
        if !ok { return Some(Rejected); }
      }
      var blocking := FindBlocking(input, matchesCurrent);
      if blocking.Some? {
        BlockedNotAdmitted(requests, confirms, blocking.value, input, matchesCurrent);
        return Some(if requests[blocking.value].owner == input.owner then Existing(blocking.value) else Rejected);
      }
      var pending, active := Count(input.owner, {input.supersedes});
      AdmittedOnce(requests, confirms, input, matchesCurrent);
      if pending >= MAX_PENDING_PER_OWNER || active >= MAX_ACTIVE_REQUESTS { return Some(Rejected); }
      if input.supersedes != "" && NeedsBase(requests, input) {
        var hash := requests[input.supersedes].patternHash;
        if hash == "" || hash != input.subjectHash { return Some(Rejected); }
      }
      refusal := None;
    }

    method Admit(input: CreateInput, id: string, matchesCurrent: Request -> bool, write: WriteOutcome) returns (outcome: CreateOutcome)
      requires id !in requests && id != input.supersedes
      modifies this`requests, this`disk
      ensures St() == CreatedStore(old(St()), confirms, id, input, matchesCurrent, write)
      ensures outcome == NewRequestId(id) <==> write.Written? && Admits(old(requests), confirms, input, matchesCurrent)
      ensures outcome == SaveError <==> !write.Written? && Admits(old(requests), confirms, input, matchesCurrent)
      ensures outcome.Existing? ==> outcome.id in requests && requests[outcome.id].owner == input.owner
      ensures outcome.Existing? ==> IsBlocking(requests, outcome.id, input, matchesCurrent)
    {
      var refusal := AdmissionVerdict(input, matchesCurrent);
      if refusal.Some? { return refusal.value; }
      var saved := Install(input, id, write);
      outcome := if saved then NewRequestId(id) else SaveError;
    }

    method Create(input: CreateInput, id: string, matchesCurrent: Request -> bool, write: WriteOutcome)
      returns (outcome: CreateOutcome, ghost dropped: set<string>)
      requires id !in requests && id != input.supersedes
      modifies this`requests, this`disk
      ensures stopping ==> St() == old(St()) && outcome == Rejected
      ensures !stopping ==> MayPrune(ExpireAll(old(requests), confirms, input.now), dropped)
      ensures !stopping ==> St() == CreatedStore(Expire(old(St()), confirms, input.now, dropped), confirms, id, input, matchesCurrent, write)
      ensures !stopping ==> (outcome == NewRequestId(id) <==>
                write.Written? && Admits(Expire(old(St()), confirms, input.now, dropped).mem, confirms, input, matchesCurrent))
      ensures !stopping ==> (outcome == SaveError <==>
                !write.Written? && Admits(Expire(old(St()), confirms, input.now, dropped).mem, confirms, input, matchesCurrent))
      ensures outcome.Existing? ==> outcome.id in requests && requests[outcome.id].owner == input.owner
      ensures outcome.Existing? ==> IsBlocking(requests, outcome.id, input, matchesCurrent)
    {
      if stopping { return Rejected, {}; }
      var _, droppedNow := ExpireLocked(input.now);
      dropped := droppedNow;
      outcome := Admit(input, id, matchesCurrent, write);
    }

    /** The duplicate and replacement checks of CreateAnalysisFixRequest. */
    method AnalysisVerdict(a: AnalysisInput) returns (refusal: Option<CreateOutcome>)
      ensures refusal.None? <==> AnalysisUnblocked(requests, a)
      ensures refusal == Some(Rejected) || refusal.None? || (refusal.value.Existing? && refusal.value.id in requests)
      ensures refusal.Some? && refusal.value.Existing? ==> IsAnalysisDuplicate(requests[refusal.value.id], a)
    {
      var keys := requests.Keys;
      while keys != {}
        invariant keys <= requests.Keys
        invariant forall id :: id in requests && id !in keys ==> !IsAnalysisDuplicate(requests[id], a)
        decreases keys
      {
        var id :| id in keys;
        keys := keys - {id};
        var existing := requests[id];
        if existing.owner != a.owner || existing.kind != AnalysisFix || existing.requestHash != a.requestHash { continue; }
        if IsActive(existing.status) { return Some(Existing(id)); }
      }
      if a.replacesId != "" {
        return if Replaceable(requests, a) then None else Some(Rejected);
      }
      keys := requests.Keys;
      while keys != {}
        invariant keys <= requests.Keys
        invariant forall id :: id in requests && id !in keys ==> !NeedsExplicitRegeneration(requests[id], a)
        decreases keys
      {
        var id :| id in keys;
        keys := keys - {id};
        if NeedsExplicitRegeneration(requests[id], a) { return Some(Rejected); }
      }
      refusal := None;
    }

    method CreateAnalysis(a: AnalysisInput, id: string, write: WriteOutcome) returns (outcome: CreateOutcome, ghost dropped: set<string>)
      requires id !in requests
      modifies this`requests, this`disk
      ensures stopping ==> St() == old(St()) && outcome == Rejected
      ensures !stopping ==> MayPrune(ExpireAll(old(requests), confirms, a.now), dropped)
      ensures !stopping ==> St() == CreatedAnalysisStore(Expire(old(St()), confirms, a.now, dropped), id, a, write)
      ensures !stopping ==> (outcome == NewRequestId(id) <==>
                write.Written? && AdmitsAnalysis(Expire(old(St()), confirms, a.now, dropped).mem, a))
      ensures outcome.Existing? ==> outcome.id in requests && IsAnalysisDuplicate(requests[outcome.id], a)
    {
      if stopping { return Rejected, {}; }
      var _, droppedNow := ExpireLocked(a.now);
      dropped := droppedNow;
      outcome := AdmitAnalysis(a, id, write);
    }

    method AdmitAnalysis(a: AnalysisInput, id: string, write: WriteOutcome) returns (outcome: CreateOutcome)
      requires id !in requests
      modifies this`requests, this`disk
      ensures St() == CreatedAnalysisStore(old(St()), id, a, write)
      ensures outcome == NewRequestId(id) <==> write.Written? && AdmitsAnalysis(old(requests), a)
      ensures outcome.Existing? ==> outcome.id in requests && IsAnalysisDuplicate(requests[outcome.id], a)
    {
      var refusal := AnalysisVerdict(a);
      AnalysisAdmittedOnce(requests, a);
      if refusal.Some? { return refusal.value; }
      var pending, active := Count(a.owner, {});
      if pending >= MAX_PENDING_PER_OWNER || active >= MAX_ACTIVE_REQUESTS { return Rejected; }
      var saved := InstallAnalysis(a, id, write);
      outcome := if saved then NewRequestId(id) else SaveError;
    }

    method InstallAnalysis(a: AnalysisInput, id: string, write: WriteOutcome) returns (ok: bool)
      requires id !in requests
      modifies this`requests, this`disk
      ensures St() == CreateAnalysisAdmitted(old(St()), id, a, write) && ok == write.Written?
    {
      ghost var before := requests;
      requests := requests[id := NewAnalysisRequest(a)];
      ok := Save(write);
      if !ok {
        requests := requests - {id};
        assert requests == before;
      }
    }

    // ---------------------------------------------------------------- restart

    /** loadActionRequests: what a start makes of the state file. Its recovery loops each touch one
        record at a time and are run as one. */
    method Load(readable: bool, checks: Revalidation, now: int, write: WriteOutcome) returns (ghost dropped: set<string>)
      requires confirms == {}
      modifies this`requests, this`disk
      ensures MayPrune(ExpireAll(if readable then old(disk) else map[], {}, now), dropped)
      ensures St() == Requests.Load(old(disk), readable, checks, now, dropped, write)
    {
      requests := if readable then disk else map[];
      ghost var file := requests;
      var changed: bool;
      changed, dropped := ExpireLocked(now);
      ghost var expired := requests;
      var recovered := RecoverLoaded(checks, now);
      LoadedStore(disk, file, expired, readable, checks, now, dropped, write);
      if changed || recovered { var _ := Save(write); }
    }

    method RecoverLoaded(checks: Revalidation, now: int) returns (changed: bool)
      modifies this`requests
      ensures requests == RecoverAll(old(requests), checks, now)
      ensures changed == exists id :: id in old(requests) && requests[id] != old(requests)[id]
    {
      changed := false;
      ghost var before, after := requests, RecoverAll(requests, checks, now);
      var keys := requests.Keys;
      while keys != {}
        invariant keys <= before.Keys
        invariant requests == Halfway(before, after, keys)
        invariant changed == exists id :: id in before - keys && after[id] != before[id]
        decreases keys
      {
        var id :| id in keys;
        HalfwayOn(before, after, keys, id);
        assert after[id] == RecoverRecord(before[id], checks, now);
        var settled := SettleOne(requests[id], checks, now);
        changed := changed || settled != requests[id];
        keys := keys - {id};
        requests := requests[id := settled];
      }
      assert requests == after;
    }

    static method SettleOne(r: Request, checks: Revalidation, now: int) returns (request: Request)
      ensures request == RecoverRecord(r, checks, now)
    {
      request := SettleDraft(r, checks, now);
      request := SettleInterrupted(request, checks, now);
    }

    static method SettleDraft(r: Request, checks: Revalidation, now: int) returns (request: Request)
      ensures request == RecoverDraft(r, checks, now)
    {
      request := r;
      if request.status == Ready && request.kind == ProposeFix &&
         (request.verificationVersion != SOURCE_VERIFICATION_VERSION || request.failureId == "" || request.patternHash == "") {
        request := request.(status := Failed, error := "saved preview requires regeneration after source verification upgrade");
        request := request.(reasonCode := "contract_generation_failed", updatedAt := now);
        return request.(preview := None, analysisInput := None, issue := None, fix := None);
      }
      if request.status != Ready && request.status != Unknown { return; }
      match checks.preview(request) {
        case Success(preview) => request := request.(preview := Some(preview));
        case Failure(code) =>
          if request.status == Unknown { return request.(preview := None); }
          request := request.(status := Failed, reasonCode := code, error := code, warning := "", updatedAt := now);
          request := request.(preview := None, analysisInput := None, issue := None, fix := None, instruction := "");
      }
    }

    static method SettleInterrupted(r: Request, checks: Revalidation, now: int) returns (request: Request)
      ensures request == RecoverInterrupted(r, checks, now)
    {
      request := r;
      if request.status == Pending {
        if request.runtime.Some? {
          request := request.(status := Cancelling);
          request := request.(cleanup := Some(Cleanup(Some(Failed), "server restarted before draft generation completed", "", None)));
        } else {
          request := request.(status := Failed);
          if request.baseIssue.None? {
            request := request.(error := "server restarted before draft generation completed", reasonCode := "generation_failed");
          } else if checks.baseValid(r) {
            request := request.(warning := "draft refinement rejected", preview := Some(IssueDraft));
          } else {
            request := request.(error := "saved fallback draft did not pass current safety validation");
            request := request.(reasonCode := "unsafe_remediation");
          }
        }
        request := request.(baseIssue := None, analysisInput := None, updatedAt := now);
      } else if request.status == Cancelling && request.cleanup.None? {
        request := request.(cleanup := Some(Cleanup(Some(Failed), "server restarted during runtime cleanup", "", None)), updatedAt := now);
      }
    }
  }
}
