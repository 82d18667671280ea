/** Persisted action requests and the effect of each critical section on them.
    backend/internal/actions/requests.go. mem is the map the server works on under its lock, disk
    the state file; a save copies mem to disk or fails, before or after replacing the file.
    Instants are seconds; an expiry that does not parse is None. */
module Requests {
  import opened Wrappers

  const ANALYSIS_PREVIEW_TTL: int := 15 * 60
  const ACTION_REQUEST_TTL: int := 24 * 60 * 60
  const MAX_ACTIVE_REQUESTS: nat := 50
  const MAX_PENDING_PER_OWNER: nat := 3
  const MAX_KEPT_REQUESTS: nat := 200
  const SOURCE_VERIFICATION_VERSION: int := 5

  datatype Status = Pending | Cancelling | Ready | Unknown | Failed | Confirmed | Cancelled | Expired

  datatype Kind = CreateIssue | ProposeFix | AnalysisFix | OtherRequest

  datatype DraftKind = IssueDraft | FixDraft | OtherDraft

  datatype WorkRef = WorkRef(name: string, uid: string)

  /** The statuses a cleanup may end in; the source writes no other into a cleanup record. */
  type FinalStatus = s: Status | s == Failed || s == Cancelled || s == Expired witness Failed

  datatype Cleanup = Cleanup(finalStatus: Option<FinalStatus>, reason: string, reasonCode: string, failure: Option<string>)

  datatype Request = Request(
    failureId: string, patternHash: string, kind: Kind, owner: string, status: Status,
    updatedAt: int, expiresAt: Option<int>, error: string, reasonCode: string, warning: string,
    failure: Option<string>, resultUrl: string, supersededBy: string, preview: Option<DraftKind>,
    instruction: string, requestHash: string, replacementHash: string, analysisInput: Option<string>,
    issue: Option<string>, fix: Option<string>, verificationVersion: int, baseIssue: Option<string>,
    runtime: Option<WorkRef>, cleanup: Option<Cleanup>, emailError: string)

  type RequestMap = map<string, Request>

  datatype Store = Store(mem: RequestMap, disk: RequestMap)

  /** Write mem to the file. */
  function Save(st: Store, write: WriteOutcome): Store {
    if write.Replaces() then st.(disk := st.mem) else st
  }

  /** Save a changed map; when the save reports failure, put the earlier map back in memory. */
  function SaveOrRollback(st: Store, changed: RequestMap, onFailure: RequestMap, write: WriteOutcome): Store {
    var saved := Save(st.(mem := changed), write);
    if write.Written? then saved else saved.(mem := onFailure)
  }

  predicate IsActive(s: Status) {
    s == Pending || s == Cancelling || s == Ready || s == Unknown
  }

  function ActiveIds(m: RequestMap): (r: set<string>)
    ensures r <= m.Keys
  {
    set id | id in m && IsActive(m[id].status)
  }

  // ------------------------------------------------------------------ expiry and pruning

  predicate IsDue(r: Request, now: int) {
    r.expiresAt.Some? && now > r.expiresAt.value
  }

  function Wiped(r: Request): Request {
    r.(error := "", warning := "", failure := None, preview := None, instruction := "", analysisInput := None,
       issue := None, baseIssue := None, runtime := None, cleanup := None, fix := None, emailError := "")
  }

  /** A due request that may own runtime work goes through cleanup; any other becomes expired. */
  function ExpireRecord(r: Request, now: int): Request {
    if r.status == Pending || r.status == Cancelling then
      r.(status := Cancelling, updatedAt := now,
         cleanup := Some(Cleanup(Some(Expired), "action request expired during runtime cleanup", "", None)))
    else if r.status != Expired then Wiped(r.(status := Expired, updatedAt := now))
    else Wiped(r)
  }

  function ExpireAll(m: RequestMap, confirming: set<string>, now: int): RequestMap {
    map id | id in m :: if id in confirming || !IsDue(m[id], now) then m[id] else ExpireRecord(m[id], now)
  }

  predicate ExpiryTouches(r: Request, now: int) {
    IsDue(r, now) && (r.status == Pending || r.status == Cancelling || ExpireRecord(r, now) != r)
  }

  predicate ExpiryChanges(m: RequestMap, confirming: set<string>, now: int) {
    exists id :: id in m && id !in confirming && ExpiryTouches(m[id], now)
  }

  predicate IsCompleted(r: Request) {
    r.status != Pending && r.status != Ready && r.status != Cancelling
  }

  /** Which completed requests a prune may drop: none up to the limit, else the oldest by update
      time (ties in any order) until the limit is met or none is left. */
  predicate MayPrune(m: RequestMap, dropped: set<string>) {
    && dropped <= m.Keys
    && (forall id :: id in dropped ==> IsCompleted(m[id]))
    && (forall id, other :: id in dropped && other in m && other !in dropped && IsCompleted(m[other]) ==>
          m[id].updatedAt <= m[other].updatedAt)
    && (dropped == {} || |m| - |dropped| >= MAX_KEPT_REQUESTS)
    && (|m| - |dropped| <= MAX_KEPT_REQUESTS || forall id :: id in m && IsCompleted(m[id]) ==> id in dropped)
  }

  /** expireRequestsLocked, given the requests its prune drops. */
  function Expire(st: Store, confirming: set<string>, now: int, dropped: set<string>): Store {
    st.(mem := ExpireAll(st.mem, confirming, now) - dropped)
  }

  predicate ExpireChanged(st: Store, confirming: set<string>, now: int, dropped: set<string>) {
    ExpiryChanges(st.mem, confirming, now) || dropped != {}
  }

  /** The opening of most public calls: expire, and save if that changed anything. */
  function ExpireAndSave(st: Store, confirming: set<string>, now: int, dropped: set<string>, write: WriteOutcome): Store {
    var e := Expire(st, confirming, now, dropped);
    if ExpireChanged(st, confirming, now, dropped) then Save(e, write) else e
  }

  predicate ExpireFailed(st: Store, confirming: set<string>, now: int, dropped: set<string>, write: WriteOutcome) {
    ExpireChanged(st, confirming, now, dropped) && write.WriteFailed?
  }

  // ------------------------------------------------------------------ confirmation

  datatype ConfirmChecks = ConfirmChecks(fixActionsEnabled: bool, previewValid: bool, snapshotCurrent: bool)

  datatype ConfirmVerdict = Refuse | AlreadyConfirmed(url: string) | Reconcile | WriteUnmarked | WriteMarked

  function EntryKind(r: Request): Option<DraftKind> {
    if r.preview.Some? then r.preview
    else if r.status == Unknown && r.kind == CreateIssue then Some(IssueDraft)
    else if r.status == Unknown && r.kind == ProposeFix then Some(FixDraft)
    else None
  }

  /** What ConfirmRequest does with a request, in the order of its checks. */
  function ConfirmVerdictFor(m: RequestMap, id: string, owner: string, confirming: bool, checks: ConfirmChecks): ConfirmVerdict {
    if id !in m || m[id].owner != owner then Refuse
    else
      var r := m[id];
      if r.kind == ProposeFix && !checks.fixActionsEnabled then Refuse
      else if r.status == Confirmed && r.resultUrl != "" then AlreadyConfirmed(r.resultUrl)
      else if r.status != Ready && r.status != Unknown then Refuse
      else if confirming then Refuse
      else match EntryKind(r)
        case None => Refuse
        case Some(OtherDraft) => Refuse
        case Some(IssueDraft) =>
          if r.issue.None? then Refuse
          else if r.status == Unknown then Reconcile
          else if !checks.previewValid then Refuse
          else WriteVerdict(r, checks)
        case Some(FixDraft) =>
          if r.fix.None? then Refuse
          else if r.status == Unknown then Reconcile
          else if r.verificationVersion != SOURCE_VERIFICATION_VERSION || r.failureId == "" || r.patternHash == "" then Refuse
          else if !checks.previewValid then Refuse
          else WriteVerdict(r, checks)
  }

  function WriteVerdict(r: Request, checks: ConfirmChecks): ConfirmVerdict {
    if r.failureId == "" then WriteUnmarked
    else if !checks.snapshotCurrent then Refuse
    else WriteMarked
  }

  function SetStatus(m: RequestMap, id: string, status: Status, now: int): RequestMap
    requires id in m
  {
    m[id := m[id].(status := status, updatedAt := now)]
  }

  /** Write-ahead: the outcome is marked unknown on disk before anything is sent. */
  function MarkUnknown(st: Store, id: string, now: int, write: WriteOutcome): Store
    requires id in st.mem
  {
    SaveOrRollback(st, SetStatus(st.mem, id, Unknown, now), SetStatus(st.mem, id, Ready, now), write)
  }

  function ConfirmFailed(st: Store, id: string, now: int, write: WriteOutcome): Store {
    if id in st.mem then Save(st.(mem := SetStatus(st.mem, id, Ready, now)), write) else st
  }

  function ConfirmSucceeded(st: Store, id: string, url: string, now: int, write: WriteOutcome): Store {
    if id in st.mem then
      Save(st.(mem := SetStatus(st.mem, id, Confirmed, now)[id := st.mem[id].(status := Confirmed, updatedAt := now, resultUrl := url)]), write)
    else st
  }

  // ------------------------------------------------------------------ cleanup

  function CleanupTransition(st: Store, id: string, cleanup: Cleanup, now: int, write: WriteOutcome): Store {
    if id in st.mem && (st.mem[id].status == Pending || st.mem[id].status == Ready)
    then SaveOrRollback(st, st.mem[id := st.mem[id].(status := Cancelling, cleanup := Some(cleanup), updatedAt := now)], st.mem, write)
    else st
  }

  const IDENTITY_CHANGED: string := "runtime work identity changed during cleanup"

  function BlockedCleanup(r: Request): Cleanup {
    if r.kind == AnalysisFix
    then Cleanup(Some(Failed), IDENTITY_CHANGED, "generation_failed", Some("safety_integrity"))
    else Cleanup(Some(Failed), IDENTITY_CHANGED, "", None)
  }

  function MarkBlocked(st: Store, id: string, now: int, write: WriteOutcome): Store {
    if id in st.mem && st.mem[id].status == Cancelling
    then SaveOrRollback(st, st.mem[id := st.mem[id].(cleanup := Some(BlockedCleanup(st.mem[id])), updatedAt := now)], st.mem, write)
    else st
  }

  /** The request finalizeCleanup leaves: its recorded final status, with everything private gone. */
  function FinalRecord(r: Request, now: int): Request {
    var c := if r.cleanup.Some? then r.cleanup.value else Cleanup(None, "", "", None);
    var final := if c.finalStatus.Some? then c.finalStatus.value else Cancelled;
    var base := r.(status := final, updatedAt := now, preview := None, instruction := "", analysisInput := None,
                   issue := None, fix := None, baseIssue := None, runtime := None, cleanup := None, emailError := "",
                   warning := if final != Failed || r.kind != AnalysisFix then "" else r.warning);
    if final == Failed
    then base.(error := c.reason, reasonCode := if c.reasonCode != "" then c.reasonCode else "generation_failed", failure := c.failure)
    else base.(error := "", reasonCode := "", failure := None)
  }

  function FinalizeCleanup(st: Store, id: string, now: int, write: WriteOutcome): Store {
    if id in st.mem && st.mem[id].status == Cancelling
    then SaveOrRollback(st, st.mem[id := FinalRecord(st.mem[id], now)], st.mem, write)
    else st
  }

  function Stopped(r: Request, now: int): Request {
    if r.status != Pending then r
    else r.(status := Cancelling, updatedAt := now,
            cleanup := Some(Cleanup(Some(Failed), "server stopped before draft generation completed", "", None)))
  }

  function StopAll(m: RequestMap, now: int): RequestMap {
    map id | id in m :: Stopped(m[id], now)
  }

  function StopActive(st: Store, now: int, write: WriteOutcome): Store {
    var stopped := StopAll(st.mem, now);
    if exists id :: id in st.mem && st.mem[id].status == Pending then Save(st.(mem := stopped), write) else st
  }

  // ------------------------------------------------------------------ generation

  predicate AcceptsWork(m: RequestMap, id: string) {
    id in m && (m[id].status == Pending || m[id].status == Cancelling)
  }

  function ObserveWork(st: Store, id: string, work: WorkRef, now: int, write: WriteOutcome): Store {
    if AcceptsWork(st.mem, id)
    then SaveOrRollback(st, st.mem[id := st.mem[id].(runtime := Some(work), updatedAt := now)], st.mem, write)
    else st
  }

  /** What generation produced, once its own validation has run. */
  datatype Generated =
    | Draft(preview: DraftKind, draft: string, patternHash: string, verificationVersion: int)
    | Fallback(preview: DraftKind, reasonCode: string)
    | GenerationError(reasonCode: string, failure: Option<string>)

  function GeneratedRecord(r: Request, g: Generated, now: int): Request {
    var base := r.(updatedAt := now, baseIssue := None, analysisInput := None);
    match g
    case GenerationError(code, failure) =>
      base.(status := Failed, reasonCode := code, error := code, failure := if r.kind == AnalysisFix then failure else None)
    case Fallback(preview, code) => base.(status := Failed, reasonCode := code, failure := None, warning := "draft refinement rejected", preview := Some(preview))
    case Draft(preview, draft, hash, version) =>
      var ready := base.(status := Ready, reasonCode := "", failure := None, preview := Some(preview));
      if r.kind == AnalysisFix then ready.(expiresAt := Some(now + ANALYSIS_PREVIEW_TTL), instruction := "")
      else if preview == IssueDraft then ready.(verificationVersion := version, patternHash := hash, issue := Some(draft))
      else ready.(verificationVersion := version, patternHash := hash, fix := Some(draft))
  }

  /** Publish the result of generation; a failed save is only logged, memory keeps the result. */
  function CompleteGeneration(st: Store, id: string, g: Generated, now: int, write: WriteOutcome): Store {
    if id in st.mem && st.mem[id].status == Pending
    then Save(st.(mem := st.mem[id := GeneratedRecord(st.mem[id], g, now)]), write)
    else st
  }

  /** A save for something other than the status: progress or a warning of a generation, or how the
      mail about a ready draft fared. */
  datatype Note = StageNote | WarningNote(text: string) | MailNote(error: string)

  predicate TakesNote(m: RequestMap, id: string, note: Note) {
    id in m &&
    match note
    case StageNote => m[id].status == Pending
    case WarningNote(text) => m[id].status == Pending && text != m[id].warning
    case MailNote(_) => m[id].status == Ready
  }

  function Noted(r: Request, note: Note, now: int): Request {
    match note
    case StageNote => r.(updatedAt := now)
    case WarningNote(text) => r.(warning := text, updatedAt := now)
    case MailNote(error) => r.(emailError := error, updatedAt := now)
  }

  /** A failed save undoes a stage or a warning, and leaves the mail status in memory. */
  function AddNote(st: Store, id: string, note: Note, now: int, write: WriteOutcome): Store {
    if !TakesNote(st.mem, id, note) then st
    else
      var noted := st.mem[id := Noted(st.mem[id], note, now)];
      SaveOrRollback(st, noted, if note.MailNote? then noted else st.mem, write)
  }

  // ------------------------------------------------------------------ creation

  datatype CreateInput = CreateInput(
    failureId: string, kind: Kind, owner: string, instruction: string, supersedes: string, subjectHash: string, now: int)

  function NewRequest(input: CreateInput, base: Option<string>): Request {
    Request(input.failureId, "", input.kind, input.owner, Pending, input.now, Some(input.now + ACTION_REQUEST_TTL),
            "", "", "", None, "", "", None, input.instruction, "", "", None, None, None, 0, base, None, None, "")
  }

  predicate Supersedable(m: RequestMap, confirming: set<string>, input: CreateInput) {
    && input.supersedes in m && m[input.supersedes].owner == input.owner
    && m[input.supersedes].failureId == input.failureId
    && input.supersedes !in confirming
    && (m[input.supersedes].status == Pending || m[input.supersedes].status == Ready)
  }

  /** An equal request of the same owner that is still open; a ready one counts only if current. */
  predicate IsDuplicate(r: Request, input: CreateInput, matchesCurrent: Request -> bool) {
    && r.owner == input.owner && r.failureId == input.failureId && r.kind == input.kind && r.instruction == input.instruction
    && IsActive(r.status) && (r.status == Ready ==> matchesCurrent(r))
  }

  predicate IsUnresolved(r: Request, input: CreateInput) {
    r.status == Unknown && r.failureId == input.failureId && r.kind == input.kind
  }

  function PendingIds(m: RequestMap, owner: string, exempt: string): set<string> {
    set id | id in m && id != exempt && (m[id].status == Pending || m[id].status == Cancelling) && m[id].owner == owner
  }

  predicate NeedsBase(m: RequestMap, input: CreateInput) {
    && input.supersedes in m && input.instruction != "" && input.kind == CreateIssue
    && m[input.supersedes].kind == CreateIssue && m[input.supersedes].status == Ready && m[input.supersedes].issue.Some?
  }

  /** A new request is admitted to map m. */
  predicate Admits(m: RequestMap, confirming: set<string>, input: CreateInput, matchesCurrent: Request -> bool) {
    && (input.supersedes != "" ==> Supersedable(m, confirming, input))
    && (input.supersedes == "" ==> forall id :: id in m ==> !IsDuplicate(m[id], input, matchesCurrent))
    && (forall id :: id in m && id != input.supersedes ==> !IsUnresolved(m[id], input))
    && |PendingIds(m, input.owner, input.supersedes)| < MAX_PENDING_PER_OWNER
    && |ActiveIds(m) - {input.supersedes}| < MAX_ACTIVE_REQUESTS
    && (input.supersedes != "" && NeedsBase(m, input) ==>
          m[input.supersedes].patternHash != "" && m[input.supersedes].patternHash == input.subjectHash)
  }

  function SupersededRecord(r: Request, successor: string, now: int): Request {
    r.(status := Cancelling, updatedAt := now, supersededBy := successor,
       cleanup := Some(Cleanup(Some(Cancelled), "superseded by a replacement request", "", None)))
  }

  /** The map with the new request in it and the one it replaces in cleanup. */
  function WithNew(m: RequestMap, id: string, input: CreateInput): RequestMap
    requires input.supersedes != "" ==> input.supersedes in m
  {
    if input.supersedes == "" then m[id := NewRequest(input, None)]
    else
      var replaced := m[input.supersedes];
      m[input.supersedes := SupersededRecord(replaced, id, input.now)]
       [id := NewRequest(input, if NeedsBase(m, input) then replaced.issue else None)]
  }

  function CreateAdmitted(st: Store, id: string, input: CreateInput, write: WriteOutcome): Store
    requires input.supersedes != "" ==> input.supersedes in st.mem
  {
    SaveOrRollback(st, WithNew(st.mem, id, input), st.mem, write)
  }

  datatype AnalysisInput = AnalysisInput(
    failureId: string, owner: string, instruction: string, requestHash: string, replacementHash: string,
    replacesId: string, payload: string, now: int)

  const NO_REVIEWABLE_PATCH: string := "no_reviewable_patch"

  function NewAnalysisRequest(a: AnalysisInput): Request {
    Request(a.failureId, "", AnalysisFix, a.owner, Pending, a.now, Some(a.now + ACTION_REQUEST_TTL),
            "", "", "", None, "", "", None, a.instruction, a.requestHash, a.replacementHash, Some(a.payload),
            None, None, 0, None, None, None, "")
  }

  predicate IsAnalysisDuplicate(r: Request, a: AnalysisInput) {
    r.owner == a.owner && r.kind == AnalysisFix && r.requestHash == a.requestHash && IsActive(r.status)
  }

  predicate Replaceable(m: RequestMap, a: AnalysisInput) {
    && a.replacesId in m && m[a.replacesId].owner == a.owner && m[a.replacesId].kind == AnalysisFix
    && m[a.replacesId].status == Failed && m[a.replacesId].reasonCode == NO_REVIEWABLE_PATCH
    && m[a.replacesId].failure == Some(NO_REVIEWABLE_PATCH) && m[a.replacesId].replacementHash == a.replacementHash
    && a.instruction != "" && a.instruction != m[a.replacesId].instruction
  }

  predicate NeedsExplicitRegeneration(r: Request, a: AnalysisInput) {
    r.owner == a.owner && r.kind == AnalysisFix && r.status == Failed && r.reasonCode == NO_REVIEWABLE_PATCH &&
    r.replacementHash == a.replacementHash
  }

  predicate AdmitsAnalysis(m: RequestMap, a: AnalysisInput) {
    && (forall id :: id in m ==> !IsAnalysisDuplicate(m[id], a))
    && (a.replacesId != "" ==> Replaceable(m, a))
    && (a.replacesId == "" ==> forall id :: id in m ==> !NeedsExplicitRegeneration(m[id], a))
    && |PendingIdsOf(m, a.owner)| < MAX_PENDING_PER_OWNER
    && |ActiveIds(m)| < MAX_ACTIVE_REQUESTS
  }

  function PendingIdsOf(m: RequestMap, owner: string): set<string> {
    set id | id in m && (m[id].status == Pending || m[id].status == Cancelling) && m[id].owner == owner
  }

  function CreateAnalysisAdmitted(st: Store, id: string, a: AnalysisInput, write: WriteOutcome): Store {
    SaveOrRollback(st, st.mem[id := NewAnalysisRequest(a)], st.mem, write)
  }

  // ------------------------------------------------------------------ restart recovery

  /** What revalidation says of a persisted ready or unknown draft: its preview, or the reason it
      is refused; and whether a saved fallback draft still passes. */
  datatype Revalidation = Revalidation(preview: Request -> Result<DraftKind, string>, baseValid: Request -> bool)

  function RecoverDraft(r: Request, checks: Revalidation, now: int): Request {
    if r.status == Ready && r.kind == ProposeFix &&
       (r.verificationVersion != SOURCE_VERIFICATION_VERSION || r.failureId == "" || r.patternHash == "")
    then r.(status := Failed, error := "saved preview requires regeneration after source verification upgrade",
            reasonCode := "contract_generation_failed", preview := None, analysisInput := None, issue := None, fix := None, updatedAt := now)
    else if r.status == Ready || r.status == Unknown then
      match checks.preview(r)
      case Success(preview) => r.(preview := Some(preview))
      case Failure(code) =>
        if r.status == Unknown then r.(preview := None)
        else r.(status := Failed, reasonCode := code, error := code, warning := "", preview := None, analysisInput := None,
                issue := None, fix := None, instruction := "", updatedAt := now)
    else r
  }

  function RecoverInterrupted(r: Request, checks: Revalidation, now: int): Request {
    match r.status
    case Pending =>
      var base := r.(baseIssue := None, analysisInput := None, updatedAt := now);
      if r.runtime.Some?
      then base.(status := Cancelling, cleanup := Some(Cleanup(Some(Failed), "server restarted before draft generation completed", "", None)))
      else if r.baseIssue.Some? then
        if checks.baseValid(r) then base.(status := Failed, warning := "draft refinement rejected", preview := Some(IssueDraft))
        else base.(status := Failed, error := "saved fallback draft did not pass current safety validation", reasonCode := "unsafe_remediation")
      else base.(status := Failed, error := "server restarted before draft generation completed", reasonCode := "generation_failed")
    case Cancelling =>
      if r.cleanup.None?
      then r.(cleanup := Some(Cleanup(Some(Failed), "server restarted during runtime cleanup", "", None)), updatedAt := now)
      else r
    case _ => r
  }

  function RecoverRecord(r: Request, checks: Revalidation, now: int): Request {
    RecoverInterrupted(RecoverDraft(r, checks, now), checks, now)
  }

  function RecoverAll(m: RequestMap, checks: Revalidation, now: int): RequestMap {
    map id | id in m :: RecoverRecord(m[id], checks, now)
  }

  /** loadActionRequests: expire and prune what the file holds (nothing if it does not parse),
      settle what the restart interrupted, and try to save the result. */
  function Load(disk: RequestMap, readable: bool, checks: Revalidation, now: int, dropped: set<string>, write: WriteOutcome): Store {
    var file: RequestMap := if readable then disk else map[];
    var mem := RecoverAll(ExpireAll(file, {}, now) - dropped, checks, now);
    if ExpiryChanges(file, {}, now) || dropped != {} || mem != file then Save(Store(mem, disk), write) else Store(mem, disk)
  }
}
