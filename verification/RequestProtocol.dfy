/** The request server as a system of concurrent activities: API calls, draft generations, runtime
    cleanups and confirmations, each taking the service lock for one critical section at a time,
    with state-file failures, shutdown and restarts in between. */
module RequestProtocol {
  import opened Wrappers
  import opened Requests
  import opened RequestLifecycle

  /** One draft generation: admitted, given its done channel, running with the last work it
      reported, returned, and finished once its done channel is closed. */
  datatype Generation = Admitted | Spawned | Running(reported: Option<WorkRef>) | Returned | Finished

  /** One ConfirmRequest call past its first critical section. */
  datatype Confirmation = Marked | Calling | ReconcileCalling | Leaving

  datatype Cause = CleanedWork(work: WorkRef) | NoWork | IdentityChanged

  datatype CleanerPc = Reading | Cleaning(work: WorkRef, mayWait: bool) | Waiting | Blocking | Finalizing(cause: Cause)

  /** One cleanupRequest call; generationDone is its local flag. */
  datatype Cleaner = Cleaner(id: string, generationDone: bool, pc: CleanerPc)

  /** cleaned, changed, finalized and unsettled record the past: work successfully cleaned up,
      requests whose work was found to belong to someone else, requests some finalize was tried
      on, and requests whose last confirmEntry call has not returned a definite error. */
  datatype World = World(
    st: Store, stopping: bool, confirms: map<string, Confirmation>, gen: map<string, Generation>,
    cleaners: map<nat, Cleaner>, cleaned: set<WorkRef>, changed: set<string>, finalized: set<string>,
    unsettled: set<string>)

  datatype Step =
    | ExpireOnly(now: int, dropped: set<string>, write: WriteOutcome)
    | Create(id: string, input: CreateInput, matchesCurrent: Request -> bool, dropped: set<string>, write: WriteOutcome)
    | CreateAnalysis(id: string, analysis: AnalysisInput, dropped: set<string>, write: WriteOutcome)
    | SpawnGeneration(id: string)
    | StartGeneration(id: string)
    | ReportWork(id: string, work: WorkRef, now: int, write: WriteOutcome)
    | CompleteStep(id: string, result: Generated, now: int, write: WriteOutcome)
    | TimeoutStep(id: string, cleanup: Cleanup, now: int, write: WriteOutcome)
    | FinishGeneration(id: string)
    | NoteStep(id: string, note: Note, now: int, write: WriteOutcome)
    | CancelStep(id: string, cleanup: Cleanup, now: int, write: WriteOutcome)
    | StopStep(now: int, write: WriteOutcome)
    | SpawnCleaner(pid: nat, id: string)
    | CleanerReads(pid: nat)
    | CleanerCleans(pid: nat)
    | CleanerStops(pid: nat)
    | CleanerFindsChange(pid: nat)
    | CleanerWakes(pid: nat)
    | CleanerBlocks(pid: nat, now: int, write: WriteOutcome)
    | CleanerFinalizes(pid: nat, now: int, write: WriteOutcome)
    | ConfirmStep(id: string, owner: string, checks: ConfirmChecks, now: int, dropped: set<string>,
                  expireWrite: WriteOutcome, write: WriteOutcome)
    | CallWrite(id: string)
    | WriteUnknown(id: string)
    | WriteRefused(id: string, now: int, write: WriteOutcome)
    | WriteSucceeded(id: string, url: string, now: int, write: WriteOutcome)
    | ReconcileFound(id: string, url: string, now: int, write: WriteOutcome)
    | ReconcileEnded(id: string)
    | Leave(id: string)
    | Restart(readable: bool, revalidation: Revalidation, now: int, dropped: set<string>, write: WriteOutcome)

  /** The done channel of a request is in place while its generation has one. */
  predicate DoneOpen(w: World, id: string) {
    id in w.gen && (w.gen[id].Spawned? || w.gen[id].Running? || w.gen[id].Returned?)
  }

  predicate GenIs(w: World, id: string, g: Generation) {
    id in w.gen && w.gen[id] == g
  }

  predicate GenRuns(w: World, id: string) {
    id in w.gen && w.gen[id].Running?
  }

  predicate CleanerAt(w: World, pid: nat, pc: CleanerPc) {
    pid in w.cleaners && w.cleaners[pid].pc == pc
  }

  predicate ConfirmAt(w: World, id: string, pc: Confirmation) {
    id in w.confirms && w.confirms[id] == pc
  }

  /** A new request id is a fresh random token. */
  predicate IsFresh(w: World, id: string) {
    && id !in w.st.mem && id !in w.st.disk && id !in w.confirms && id !in w.gen
    && id !in w.unsettled && id !in w.changed && id !in w.finalized
    && forall pid :: pid in w.cleaners ==> w.cleaners[pid].id != id
  }

  /** What each activity may do next. A generator that has reported a UID reports no other work. */
  predicate Enabled(w: World, s: Step) {
    match s
    case ExpireOnly(now, dropped, _) => MayPrune(ExpireAll(w.st.mem, w.confirms.Keys, now), dropped)
    case Create(id, input, _, dropped, _) =>
      !w.stopping && IsFresh(w, id) && id != input.supersedes &&
      MayPrune(ExpireAll(w.st.mem, w.confirms.Keys, input.now), dropped)
    case CreateAnalysis(id, a, dropped, _) =>
      !w.stopping && IsFresh(w, id) && MayPrune(ExpireAll(w.st.mem, w.confirms.Keys, a.now), dropped)
    case SpawnGeneration(id) => GenIs(w, id, Admitted)
    case StartGeneration(id) => GenIs(w, id, Spawned)
    case ReportWork(id, work, _, _) =>
      GenRuns(w, id) && (w.gen[id].reported.Some? && w.gen[id].reported.value.uid != "" ==> work == w.gen[id].reported.value)
    case CompleteStep(id, _, _, _) => GenRuns(w, id)
    case TimeoutStep(id, _, _, _) => GenRuns(w, id)
    case FinishGeneration(id) => GenIs(w, id, Returned)
    case NoteStep(_, _, _, _) => true
    case CancelStep(_, _, _, _) => true
    case StopStep(_, _) => true
    case SpawnCleaner(pid, id) => pid !in w.cleaners
    case CleanerReads(pid) => CleanerAt(w, pid, Reading)
    case CleanerCleans(pid) => pid in w.cleaners && w.cleaners[pid].pc.Cleaning?
    case CleanerStops(pid) => pid in w.cleaners
    case CleanerFindsChange(pid) => pid in w.cleaners && w.cleaners[pid].pc.Cleaning?
    case CleanerWakes(pid) => CleanerAt(w, pid, Waiting) && GenIs(w, w.cleaners[pid].id, Finished)
    case CleanerBlocks(pid, _, _) => CleanerAt(w, pid, Blocking)
    case CleanerFinalizes(pid, _, _) => pid in w.cleaners && w.cleaners[pid].pc.Finalizing?
    case ConfirmStep(_, _, _, now, dropped, _, _) => MayPrune(ExpireAll(w.st.mem, w.confirms.Keys, now), dropped)
    case CallWrite(id) => ConfirmAt(w, id, Marked)
    case WriteUnknown(id) => ConfirmAt(w, id, Calling)
    case WriteRefused(id, _, _) => ConfirmAt(w, id, Calling)
    case WriteSucceeded(id, _, _, _) => ConfirmAt(w, id, Calling)
    case ReconcileFound(id, _, _, _) => ConfirmAt(w, id, ReconcileCalling)
    case ReconcileEnded(id) => ConfirmAt(w, id, ReconcileCalling)
    case Leave(id) => ConfirmAt(w, id, Leaving)
    case Restart(readable, _, now, dropped, _) => MayPrune(ExpireAll(if readable then w.st.disk else map[], {}, now), dropped)
  }

  function MoveCleaner(w: World, pid: nat, pc: CleanerPc): World
    requires pid in w.cleaners
  {
    w.(cleaners := w.cleaners[pid := w.cleaners[pid].(pc := pc)])
  }

  function EndCleaner(w: World, pid: nat): World {
    w.(cleaners := w.cleaners - {pid})
  }

  /** The first critical section of cleanupRequest's loop. */
  function CleanerRead(w: World, pid: nat): World
    requires pid in w.cleaners
  {
    var c := w.cleaners[pid];
    if c.id !in w.st.mem || w.st.mem[c.id].status != Cancelling then EndCleaner(w, pid)
    else match w.st.mem[c.id].runtime
      case Some(work) => MoveCleaner(w, pid, Cleaning(work, DoneOpen(w, c.id)))
      case None =>
        if !DoneOpen(w, c.id) || c.generationDone then MoveCleaner(w, pid, Finalizing(NoWork))
        else MoveCleaner(w, pid, Waiting)
  }

  function CleanerCleaned(w: World, pid: nat): World
    requires pid in w.cleaners && w.cleaners[pid].pc.Cleaning?
  {
    var c := w.cleaners[pid];
    var next := if c.pc.work.uid == "" && c.pc.mayWait && !c.generationDone then Waiting else Finalizing(CleanedWork(c.pc.work));
    MoveCleaner(w, pid, next).(cleaned := w.cleaned + {c.pc.work})
  }

  function Blocked(w: World, pid: nat, now: int, write: WriteOutcome): World
    requires pid in w.cleaners
  {
    var id := w.cleaners[pid].id;
    var st := MarkBlocked(w.st, id, now, write);
    if id !in w.st.mem || w.st.mem[id].status != Cancelling || write.WriteFailed?
    then EndCleaner(w.(st := st), pid)
    else MoveCleaner(w.(st := st), pid, Finalizing(IdentityChanged))
  }

  function Created(w: World, id: string, input: CreateInput, matchesCurrent: Request -> bool, dropped: set<string>, write: WriteOutcome): World {
    var st := Expire(w.st, w.confirms.Keys, input.now, dropped);
    if Admits(st.mem, w.confirms.Keys, input, matchesCurrent) then WithGeneration(w, CreateAdmitted(st, id, input, write), id, write)
    else w.(st := st)
  }

  /** A saved creation starts its generation; a failed one does not. */
  function WithGeneration(w: World, st: Store, id: string, write: WriteOutcome): World {
    w.(st := st, gen := if write.Written? then w.gen[id := Admitted] else w.gen)
  }

  function CreatedAnalysis(w: World, id: string, a: AnalysisInput, dropped: set<string>, write: WriteOutcome): World {
    var st := Expire(w.st, w.confirms.Keys, a.now, dropped);
    if AdmitsAnalysis(st.mem, a) then WithGeneration(w, CreateAnalysisAdmitted(st, id, a, write), id, write)
    else w.(st := st)
  }

  /** The first critical section of ConfirmRequest. */
  function ConfirmEntered(w: World, id: string, owner: string, checks: ConfirmChecks, now: int, dropped: set<string>,
                          expireWrite: WriteOutcome, write: WriteOutcome): World {
    var st := ExpireAndSave(w.st, w.confirms.Keys, now, dropped, expireWrite);
    if ExpireFailed(w.st, w.confirms.Keys, now, dropped, expireWrite) then w.(st := st)
    else AfterVerdict(w.(st := st), id, owner, checks, now, write)
  }

  function AfterVerdict(w: World, id: string, owner: string, checks: ConfirmChecks, now: int, write: WriteOutcome): World {
    match ConfirmVerdictFor(w.st.mem, id, owner, id in w.confirms, checks)
    case Refuse => w
    case AlreadyConfirmed(_) => w
    case Reconcile => w.(confirms := w.confirms[id := ReconcileCalling])
    case WriteUnmarked => w.(confirms := w.confirms[id := Marked])
    case WriteMarked =>
      if id !in w.st.mem then w
      else
        var marked := w.(st := MarkUnknown(w.st, id, now, write));
        if write.Written? then marked.(confirms := w.confirms[id := Marked]) else marked
  }

  function Next(w: World, s: Step): World
    requires Enabled(w, s)
  {
    match s
    case ExpireOnly(now, dropped, write) => w.(st := ExpireAndSave(w.st, w.confirms.Keys, now, dropped, write))
    case Create(id, input, matches, dropped, write) => Created(w, id, input, matches, dropped, write)
    case CreateAnalysis(id, a, dropped, write) => CreatedAnalysis(w, id, a, dropped, write)
    case SpawnGeneration(id) => w.(gen := w.gen[id := Spawned])
    case StartGeneration(id) =>
      w.(gen := w.gen[id := if id in w.st.mem && w.st.mem[id].status == Pending then Running(None) else Returned])
    case ReportWork(id, work, now, write) =>
      var next := w.(st := ObserveWork(w.st, id, work, now, write));
      if AcceptsWork(w.st.mem, id) && write.Written? then next.(gen := w.gen[id := Running(Some(work))]) else next
    case CompleteStep(id, result, now, write) =>
      w.(st := CompleteGeneration(w.st, id, result, now, write), gen := w.gen[id := Returned])
    case TimeoutStep(id, cleanup, now, write) =>
      w.(st := CleanupTransition(w.st, id, cleanup, now, write), gen := w.gen[id := Returned])
    case FinishGeneration(id) => w.(gen := w.gen[id := Finished])
    case NoteStep(id, note, now, write) => w.(st := AddNote(w.st, id, note, now, write))
    case CancelStep(id, cleanup, now, write) => w.(st := CleanupTransition(w.st, id, cleanup, now, write))
    case StopStep(now, write) => w.(st := StopActive(w.st, now, write), stopping := true)
    case SpawnCleaner(pid, id) => w.(cleaners := w.cleaners[pid := Cleaner(id, false, Reading)])
    case CleanerReads(pid) => CleanerRead(w, pid)
    case CleanerCleans(pid) => CleanerCleaned(w, pid)
    case CleanerStops(pid) => EndCleaner(w, pid)
    case CleanerFindsChange(pid) => MoveCleaner(w, pid, Blocking).(changed := w.changed + {w.cleaners[pid].id})
    case CleanerWakes(pid) => w.(cleaners := w.cleaners[pid := w.cleaners[pid].(generationDone := true, pc := Reading)])
    case CleanerBlocks(pid, now, write) => Blocked(w, pid, now, write)
    case CleanerFinalizes(pid, now, write) =>
      var id := w.cleaners[pid].id;
      EndCleaner(w.(st := FinalizeCleanup(w.st, id, now, write), finalized := w.finalized + {id}), pid)
    case ConfirmStep(id, owner, checks, now, dropped, expireWrite, write) =>
      ConfirmEntered(w, id, owner, checks, now, dropped, expireWrite, write)
    case CallWrite(id) => w.(confirms := w.confirms[id := Calling], unsettled := w.unsettled + {id})
    case WriteUnknown(id) => w.(confirms := w.confirms[id := Leaving])
    case WriteRefused(id, now, write) =>
      w.(st := ConfirmFailed(w.st, id, now, write), confirms := w.confirms[id := Leaving], unsettled := w.unsettled - {id})
    case WriteSucceeded(id, url, now, write) =>
      w.(st := ConfirmSucceeded(w.st, id, url, now, write), confirms := w.confirms[id := Leaving])
    case ReconcileFound(id, url, now, write) =>
      w.(st := ConfirmSucceeded(w.st, id, url, now, write), confirms := w.confirms[id := Leaving])
    case ReconcileEnded(id) => w.(confirms := w.confirms[id := Leaving])
    case Leave(id) => w.(confirms := w.confirms - {id})
    case Restart(readable, revalidation, now, dropped, write) =>
      World(Load(w.st.disk, readable, revalidation, now, dropped, write), false, map[], map[], map[], w.cleaned, w.changed,
            w.finalized, w.unsettled)
  }

  // ------------------------------------------------------------------ at most one write

  function Cell(m: RequestMap, id: string): Option<Request> {
    if id in m then Some(m[id]) else None
  }

  /** What a save can make of one request's copy on disk, and an operation of its copy in memory,
      when the operation may not act on confirmations of that request. */
  datatype Power = Power(confirming: bool, reports: bool, finalizes: bool)

  predicate InCleanup(s: Status) {
    s == Pending || s == Cancelling
  }

  predicate StatusMove(a: Status, b: Status, p: Power) {
    match a
    case Pending => b == Cancelling || b == Ready || b == Failed
    case Ready => b == Cancelling || (b == Expired && !p.confirming)
    case Cancelling => p.finalizes && (b == Failed || b == Cancelled || b == Expired)
    case Expired => false
    case _ => b == Expired && !p.confirming
  }

  predicate MemMove(c: Option<Request>, d: Option<Request>, p: Power) {
    if c.None? then d.None?
    else if d.None? then !InCleanup(c.value.status) && (c.value.status == Ready ==> !p.confirming)
    else
      && SameIdentity(c.value, d.value)
      && (d.value.status == c.value.status || StatusMove(c.value.status, d.value.status, p))
      && (InCleanup(d.value.status) ==> d.value.runtime == c.value.runtime || (p.reports && d.value.runtime.Some?))
  }

  /** The disk copy after a rolled-back operation whose write had already replaced the file. */
  predicate RolledBack(c: Option<Request>, d: Option<Request>, p: Power) {
    c.Some? && d.Some? && MemMove(c, d, p) && (c.value.status == Pending ==> InCleanup(d.value.status))
  }

  predicate StoreMove(st: Store, after: Store, id: string, p: Power) {
    var c, d := Cell(st.mem, id), Cell(after.mem, id);
    var e, f := Cell(st.disk, id), Cell(after.disk, id);
    && MemMove(c, d, p)
    && (f == e || f == d || (d == c && RolledBack(c, f, p)))
    && (c.Some? && c.value.status == Ready && d.Some? && d.value.status == Cancelling ==> f == d)
    && (c.Some? && d.Some? && InCleanup(d.value.status) && d.value.runtime != c.value.runtime ==> f == d)
  }

  const NO_POWER: Power := Power(true, false, false)

  predicate DropsCompleted(m: RequestMap, dropped: set<string>, id: string) {
    id in m && id in dropped ==> IsCompleted(m[id])
  }

  lemma PruneDropsCompleted(m: RequestMap, dropped: set<string>, id: string)
    requires MayPrune(m, dropped)
    ensures DropsCompleted(m, dropped, id)
  {
  }

  lemma ExpireMoves(st: Store, confirming: set<string>, now: int, dropped: set<string>, id: string)
    requires DropsCompleted(ExpireAll(st.mem, confirming, now), dropped, id)
    ensures StoreMove(st, Expire(st, confirming, now, dropped), id, Power(id in confirming, false, false))
  {
    if id in st.mem { ExpiredRecordMoves(st.mem[id], now); }
  }

  lemma ExpiredRecordMoves(r: Request, now: int)
    ensures MemMove(Some(r), Some(ExpireRecord(r, now)), Power(false, false, false))
  {
  }

  lemma ExpireAndSaveMoves(st: Store, confirming: set<string>, now: int, dropped: set<string>, write: WriteOutcome, id: string)
    requires DropsCompleted(ExpireAll(st.mem, confirming, now), dropped, id)
    ensures StoreMove(st, ExpireAndSave(st, confirming, now, dropped, write), id, Power(id in confirming, false, false))
  {
    ExpireMoves(st, confirming, now, dropped, id);
  }

  lemma TransitionMoves(st: Store, target: string, cleanup: Cleanup, now: int, write: WriteOutcome, id: string)
    ensures StoreMove(st, CleanupTransition(st, target, cleanup, now, write), id, NO_POWER)
  {
  }

  lemma CompleteMoves(st: Store, target: string, g: Generated, now: int, write: WriteOutcome, id: string)
    ensures StoreMove(st, CompleteGeneration(st, target, g, now, write), id, NO_POWER)
  {
  }

  lemma ObserveMoves(st: Store, target: string, work: WorkRef, now: int, write: WriteOutcome, id: string)
    ensures StoreMove(st, ObserveWork(st, target, work, now, write), id, Power(true, id == target, false))
  {
  }

  lemma BlockedMoves(st: Store, target: string, now: int, write: WriteOutcome, id: string)
    ensures StoreMove(st, MarkBlocked(st, target, now, write), id, NO_POWER)
  {
  }

  lemma FinalizeMoves(st: Store, target: string, now: int, write: WriteOutcome, id: string)
    ensures StoreMove(st, FinalizeCleanup(st, target, now, write), id, Power(true, false, id == target))
  {
  }

  lemma NoteMoves(st: Store, target: string, note: Note, now: int, write: WriteOutcome, id: string)
    ensures StoreMove(st, AddNote(st, target, note, now, write), id, NO_POWER)
  {
  }

  lemma StopMoves(st: Store, now: int, write: WriteOutcome, id: string)
    ensures StoreMove(st, StopActive(st, now, write), id, NO_POWER)
  {
  }

  lemma AdmitMoves(st: Store, newId: string, input: CreateInput, write: WriteOutcome, id: string)
    requires input.supersedes != "" ==> input.supersedes in st.mem && (st.mem[input.supersedes].status == Pending || st.mem[input.supersedes].status == Ready)
    requires newId !in st.mem && id != newId
    ensures StoreMove(st, CreateAdmitted(st, newId, input, write), id, NO_POWER)
  {
  }

  lemma AdmitAnalysisMoves(st: Store, newId: string, a: AnalysisInput, write: WriteOutcome, id: string)
    requires newId !in st.mem && id != newId
    ensures StoreMove(st, CreateAnalysisAdmitted(st, newId, a, write), id, NO_POWER)
  {
  }

  /** Marking, refusing and confirming one request leave every other in place. */
  lemma ConfirmationMoves(st: Store, target: string, url: string, now: int, write: WriteOutcome, id: string)
    requires id != target
    ensures target in st.mem ==> StoreMove(st, MarkUnknown(st, target, now, write), id, NO_POWER)
    ensures StoreMove(st, ConfirmFailed(st, target, now, write), id, NO_POWER)
    ensures StoreMove(st, ConfirmSucceeded(st, target, url, now, write), id, NO_POWER)
  {
  }

  /** Nothing in this map could ever start a write for the request. */
  predicate Sealed(c: Option<Request>) {
    c.Some? ==> c.value.status == Unknown || c.value.status == Confirmed || c.value.status == Expired
  }

  predicate UnknownIn(c: Option<Request>) {
    c.Some? ==> c.value.status == Unknown
  }

  predicate NamedIn(c: Option<Request>) {
    c.Some? ==> c.value.failureId != ""
  }

  /** An unsettled request is sealed in memory and on disk; a marked confirmation has unknown on
      disk and no unsettled write. */
  predicate CellGuard(mem: Option<Request>, disk: Option<Request>, confirmation: Option<Confirmation>, unsettled: bool) {
    && NamedIn(mem) && NamedIn(disk)
    && (unsettled ==> Sealed(mem) && Sealed(disk))
    && (confirmation.Some? ==> match confirmation.value
        case Marked => !unsettled && UnknownIn(mem) && UnknownIn(disk)
        case Calling => unsettled && UnknownIn(mem)
        case ReconcileCalling => UnknownIn(mem)
        case Leaving => true)
  }

  function ConfirmationOf(w: World, id: string): Option<Confirmation> {
    if id in w.confirms then Some(w.confirms[id]) else None
  }

  predicate StoreGuard(st: Store, confirmation: Option<Confirmation>, unsettled: bool, id: string) {
    CellGuard(Cell(st.mem, id), Cell(st.disk, id), confirmation, unsettled)
  }

  predicate WriteGuard(w: World, id: string) {
    StoreGuard(w.st, ConfirmationOf(w, id), id in w.unsettled, id)
  }

  lemma MoveKeepsGuard(st: Store, after: Store, confirmation: Option<Confirmation>, unsettled: bool, id: string, p: Power)
    requires StoreGuard(st, confirmation, unsettled, id) && StoreMove(st, after, id, p)
    requires confirmation.Some? ==> p.confirming
    ensures StoreGuard(after, confirmation, unsettled, id)
  {
  }

  predicate NamesRequest(s: Step) {
    && (s.Create? ==> s.input.failureId != "")
    && (s.CreateAnalysis? ==> s.analysis.failureId != "")
  }

  lemma NewRequestIsGuarded(w: World, id: string, input: CreateInput, matches: Request -> bool, dropped: set<string>, write: WriteOutcome)
    requires IsFresh(w, id) && id != input.supersedes && input.failureId != ""
    ensures WriteGuard(Created(w, id, input, matches, dropped, write), id)
  {
  }

  lemma NewAnalysisIsGuarded(w: World, id: string, a: AnalysisInput, dropped: set<string>, write: WriteOutcome)
    requires IsFresh(w, id) && a.failureId != ""
    ensures WriteGuard(CreatedAnalysis(w, id, a, dropped, write), id)
  {
  }

  lemma AdmissionKeepsGuard(st: Store, newId: string, input: CreateInput, write: WriteOutcome, confirmation: Option<Confirmation>, unsettled: bool, id: string)
    requires StoreGuard(st, confirmation, unsettled, id) && newId !in st.mem && newId != id
    requires input.supersedes != "" ==> input.supersedes in st.mem && (st.mem[input.supersedes].status == Pending || st.mem[input.supersedes].status == Ready)
    ensures StoreGuard(CreateAdmitted(st, newId, input, write), confirmation, unsettled, id)
  {
    AdmitMoves(st, newId, input, write, id);
    MoveKeepsGuard(st, CreateAdmitted(st, newId, input, write), confirmation, unsettled, id, NO_POWER);
  }

  lemma AnalysisAdmissionKeepsGuard(st: Store, newId: string, a: AnalysisInput, write: WriteOutcome, confirmation: Option<Confirmation>, unsettled: bool, id: string)
    requires StoreGuard(st, confirmation, unsettled, id) && newId !in st.mem && newId != id
    ensures StoreGuard(CreateAnalysisAdmitted(st, newId, a, write), confirmation, unsettled, id)
  {
    AdmitAnalysisMoves(st, newId, a, write, id);
    MoveKeepsGuard(st, CreateAnalysisAdmitted(st, newId, a, write), confirmation, unsettled, id, NO_POWER);
  }

  lemma ExpiryKeepsGuard(w: World, now: int, dropped: set<string>, id: string)
    requires WriteGuard(w, id)
    requires DropsCompleted(ExpireAll(w.st.mem, w.confirms.Keys, now), dropped, id)
    ensures StoreGuard(Expire(w.st, w.confirms.Keys, now, dropped), ConfirmationOf(w, id), id in w.unsettled, id)
  {
    ExpireMoves(w.st, w.confirms.Keys, now, dropped, id);
    MoveKeepsGuard(w.st, Expire(w.st, w.confirms.Keys, now, dropped), ConfirmationOf(w, id), id in w.unsettled, id, Power(id in w.confirms, false, false));
  }

  lemma AdmitsMeaning(m: RequestMap, confirming: set<string>, input: CreateInput, matches: Request -> bool)
    requires Admits(m, confirming, input, matches)
    ensures input.supersedes != "" ==> input.supersedes in m && (m[input.supersedes].status == Pending || m[input.supersedes].status == Ready)
    ensures input.supersedes != "" ==> input.supersedes !in confirming
    ensures |ActiveIds(m) - {input.supersedes}| < MAX_ACTIVE_REQUESTS
  {
  }

  lemma CreateKeepsGuard(w: World, newId: string, input: CreateInput, matches: Request -> bool, dropped: set<string>, write: WriteOutcome, id: string)
    requires newId !in w.st.mem && WriteGuard(w, id) && newId != id
    requires DropsCompleted(ExpireAll(w.st.mem, w.confirms.Keys, input.now), dropped, id)
    ensures WriteGuard(Created(w, newId, input, matches, dropped, write), id)
  {
    var st := Expire(w.st, w.confirms.Keys, input.now, dropped);
    ExpiryKeepsGuard(w, input.now, dropped, id);
    if Admits(st.mem, w.confirms.Keys, input, matches) {
      AdmitsMeaning(st.mem, w.confirms.Keys, input, matches);
      AdmissionKeepsGuard(st, newId, input, write, ConfirmationOf(w, id), id in w.unsettled, id);
    }
  }

  lemma CreateAnalysisKeepsGuard(w: World, newId: string, a: AnalysisInput, dropped: set<string>, write: WriteOutcome, id: string)
    requires newId !in w.st.mem && WriteGuard(w, id) && newId != id
    requires DropsCompleted(ExpireAll(w.st.mem, w.confirms.Keys, a.now), dropped, id)
    ensures WriteGuard(CreatedAnalysis(w, newId, a, dropped, write), id)
  {
    var st := Expire(w.st, w.confirms.Keys, a.now, dropped);
    ExpiryKeepsGuard(w, a.now, dropped, id);
    if AdmitsAnalysis(st.mem, a) {
      AnalysisAdmissionKeepsGuard(st, newId, a, write, ConfirmationOf(w, id), id in w.unsettled, id);
    }
  }

  lemma MarkingGuards(st: Store, id: string, confirmation: Option<Confirmation>, unsettled: bool, now: int, write: WriteOutcome)
    requires StoreGuard(st, None, unsettled, id) && id in st.mem && st.mem[id].status == Ready
    ensures StoreGuard(MarkUnknown(st, id, now, write), if write.Written? then Some(Marked) else None, unsettled, id)
  {
  }

  lemma VerdictMeaning(m: RequestMap, id: string, owner: string, confirming: bool, checks: ConfirmChecks)
    ensures var v := ConfirmVerdictFor(m, id, owner, confirming, checks);
            && (v.Reconcile? || v.WriteMarked? || v.WriteUnmarked? ==> id in m && !confirming)
            && (v.Reconcile? ==> m[id].status == Unknown)
            && (v.WriteMarked? ==> m[id].status == Ready && m[id].failureId != "")
            && (v.WriteUnmarked? ==> m[id].status == Ready && m[id].failureId == "")
  {
  }

  lemma ConfirmKeepsGuard(w: World, target: string, owner: string, checks: ConfirmChecks, now: int, dropped: set<string>,
                          expireWrite: WriteOutcome, write: WriteOutcome, id: string)
    requires WriteGuard(w, id)
    requires DropsCompleted(ExpireAll(w.st.mem, w.confirms.Keys, now), dropped, id)
    ensures WriteGuard(ConfirmEntered(w, target, owner, checks, now, dropped, expireWrite, write), id)
  {
    var st := ExpireAndSave(w.st, w.confirms.Keys, now, dropped, expireWrite);
    ExpireAndSaveMoves(w.st, w.confirms.Keys, now, dropped, expireWrite, id);
    MoveKeepsGuard(w.st, st, ConfirmationOf(w, id), id in w.unsettled, id, Power(id in w.confirms, false, false));
    if !ExpireFailed(w.st, w.confirms.Keys, now, dropped, expireWrite) {
      AfterVerdictKeepsGuard(w.(st := st), target, owner, checks, now, write, id);
    }
  }

  lemma AfterVerdictKeepsGuard(w: World, target: string, owner: string, checks: ConfirmChecks, now: int, write: WriteOutcome, id: string)
    requires WriteGuard(w, id)
    ensures WriteGuard(AfterVerdict(w, target, owner, checks, now, write), id)
  {
    VerdictMeaning(w.st.mem, target, owner, target in w.confirms, checks);
    if ConfirmVerdictFor(w.st.mem, target, owner, target in w.confirms, checks).WriteMarked? {
      if target == id {
        MarkingGuards(w.st, id, None, id in w.unsettled, now, write);
      } else {
        ConfirmationMoves(w.st, target, "", now, write, id);
        MoveKeepsGuard(w.st, MarkUnknown(w.st, target, now, write), ConfirmationOf(w, id), id in w.unsettled, id, NO_POWER);
      }
    }
  }

  predicate IsSection(s: Step) {
    s.ExpireOnly? || s.ReportWork? || s.CompleteStep? || s.TimeoutStep? || s.CancelStep? || s.StopStep? ||
    s.NoteStep? || s.CleanerBlocks? || s.CleanerFinalizes?
  }

  /** The power a plain critical section has over one request. */
  function SectionPower(w: World, s: Step, id: string): Power {
    Power(id in w.confirms || !s.ExpireOnly?, s.ReportWork? && s.id == id,
          s.CleanerFinalizes? && s.pid in w.cleaners && w.cleaners[s.pid].id == id)
  }

  lemma SectionMoves(w: World, s: Step, id: string)
    requires Enabled(w, s) && IsSection(s)
    ensures StoreMove(w.st, Next(w, s).st, id, SectionPower(w, s, id))
  {
    match s
    case ExpireOnly(now, dropped, write) =>
      PruneDropsCompleted(ExpireAll(w.st.mem, w.confirms.Keys, now), dropped, id);
      ExpireAndSaveMoves(w.st, w.confirms.Keys, now, dropped, write, id);
    case ReportWork(target, work, now, write) => ObserveMoves(w.st, target, work, now, write, id);
    case CompleteStep(target, result, now, write) => CompleteMoves(w.st, target, result, now, write, id);
    case TimeoutStep(target, cleanup, now, write) => TransitionMoves(w.st, target, cleanup, now, write, id);
    case CancelStep(target, cleanup, now, write) => TransitionMoves(w.st, target, cleanup, now, write, id);
    case NoteStep(target, note, now, write) => NoteMoves(w.st, target, note, now, write, id);
    case StopStep(now, write) => StopMoves(w.st, now, write, id);
    case CleanerBlocks(pid, now, write) => BlockedMoves(w.st, w.cleaners[pid].id, now, write, id);
    case CleanerFinalizes(pid, now, write) => FinalizeMoves(w.st, w.cleaners[pid].id, now, write, id);
  }

  lemma SectionKeepsConfirmations(w: World, s: Step)
    requires Enabled(w, s) && IsSection(s)
    ensures Next(w, s).confirms == w.confirms && Next(w, s).unsettled == w.unsettled
  {
  }

  lemma OutcomeOfAnother(st: Store, target: string, url: string, now: int, write: WriteOutcome, confirmation: Option<Confirmation>, unsettled: bool, id: string)
    requires StoreGuard(st, confirmation, unsettled, id) && id != target
    ensures StoreGuard(ConfirmFailed(st, target, now, write), confirmation, unsettled, id)
    ensures StoreGuard(ConfirmSucceeded(st, target, url, now, write), confirmation, unsettled, id)
  {
    ConfirmationMoves(st, target, url, now, write, id);
    MoveKeepsGuard(st, ConfirmFailed(st, target, now, write), confirmation, unsettled, id, NO_POWER);
    MoveKeepsGuard(st, ConfirmSucceeded(st, target, url, now, write), confirmation, unsettled, id, NO_POWER);
  }

  lemma OutcomeOfOwn(st: Store, id: string, url: string, now: int, write: WriteOutcome, confirmation: Confirmation, unsettled: bool)
    requires StoreGuard(st, Some(confirmation), unsettled, id)
    ensures confirmation == Calling ==> StoreGuard(ConfirmFailed(st, id, now, write), Some(Leaving), false, id)
    ensures confirmation == Calling || confirmation == ReconcileCalling ==>
              StoreGuard(ConfirmSucceeded(st, id, url, now, write), Some(Leaving), unsettled, id)
  {
  }

  lemma OutcomeKeepsGuard(w: World, s: Step, id: string)
    requires Enabled(w, s) && WriteGuard(w, id)
    requires s.WriteRefused? || s.WriteSucceeded? || s.ReconcileFound?
    ensures WriteGuard(Next(w, s), id)
  {
    var url := if s.WriteRefused? then "" else s.url;
    if s.id != id {
      OutcomeOfAnother(w.st, s.id, url, s.now, s.write, ConfirmationOf(w, id), id in w.unsettled, id);
    } else {
      OutcomeOfOwn(w.st, id, url, s.now, s.write, w.confirms[id], id in w.unsettled);
    }
  }

  lemma RestartedCell(disk: RequestMap, readable: bool, checks: Revalidation, now: int, dropped: set<string>, write: WriteOutcome, id: string)
    requires DropsCompleted(ExpireAll(if readable then disk else map[], {}, now), dropped, id)
    ensures var st := Load(disk, readable, checks, now, dropped, write);
            var r := Cell(st.mem, id);
            && (r.Some? ==> id in disk && r == Some(RecoverRecord(if IsDue(disk[id], now) then ExpireRecord(disk[id], now) else disk[id], checks, now)))
            && (Cell(st.disk, id) == Cell(disk, id) || Cell(st.disk, id) == r)
            && (readable && id in disk && InCleanup(disk[id].status) ==> r.Some?)
  {
    var file: RequestMap := if readable then disk else map[];
    var mem := RecoverAll(ExpireAll(file, {}, now) - dropped, checks, now);
    assert id in mem ==> id in file;
  }

  lemma DraftRecovery(r: Request, checks: Revalidation, now: int)
    ensures var q := RecoverDraft(r, checks, now);
            && SameIdentity(r, q) && q.runtime == r.runtime
            && (q.status == r.status || (r.status == Ready && q.status == Failed))
  {
    PassingDraftIsKept(r, checks, now);
    if r.status == Ready && (IsOutdatedFix(r) || checks.preview(r).Failure?) { FailingDraftIsWithdrawn(r, checks, now); }
  }

  lemma InterruptedRecovery(r: Request, checks: Revalidation, now: int)
    ensures var q := RecoverInterrupted(r, checks, now);
            && SameIdentity(r, q) && q.runtime == r.runtime
            && (if r.status == Pending then q.status == if r.runtime.Some? then Cancelling else Failed else q.status == r.status)
  {
  }

  /** What a restart makes of a persisted request. */
  lemma Recovery(r: Request, checks: Revalidation, now: int)
    ensures var q := RecoverRecord(if IsDue(r, now) then ExpireRecord(r, now) else r, checks, now);
            && SameIdentity(r, q)
            && (Sealed(Some(r)) ==> Sealed(Some(q)))
            && (IsActive(q.status) ==> IsActive(r.status))
            && q.status != Pending
            && (r.status == Cancelling ==> q.status == Cancelling)
            && (r.status == Pending && r.runtime.Some? ==> q.status == Cancelling)
            && (InCleanup(q.status) ==> InCleanup(r.status) && q.runtime == r.runtime)
  {
    var e := if IsDue(r, now) then ExpireRecord(r, now) else r;
    if IsDue(r, now) { ExpiryEffect(r, now); }
    RecoveryEffect(e, checks, now);
    EffectsCombine(r, e, RecoverRecord(e, checks, now));
  }

  predicate Settles(e: Request, q: Request) {
    && SameIdentity(e, q) && q.runtime == e.runtime
    && (if e.status == Pending then q.status == if e.runtime.Some? then Cancelling else Failed
        else q.status == e.status || (e.status == Ready && q.status == Failed))
  }

  predicate ExpiresTo(r: Request, e: Request) {
    && SameIdentity(r, e) && (InCleanup(r.status) ==> e.status == Cancelling && e.runtime == r.runtime)
    && (!InCleanup(r.status) ==> e.status == Expired)
  }

  lemma EffectsCombine(r: Request, e: Request, q: Request)
    requires (e == r || ExpiresTo(r, e)) && Settles(e, q)
    ensures SameIdentity(r, q) && (Sealed(Some(r)) ==> Sealed(Some(q)))
    ensures IsActive(q.status) ==> IsActive(r.status)
    ensures q.status != Pending
    ensures r.status == Cancelling ==> q.status == Cancelling
    ensures r.status == Pending && r.runtime.Some? ==> q.status == Cancelling
    ensures InCleanup(q.status) ==> InCleanup(r.status) && q.runtime == r.runtime
  {
  }

  lemma ExpiryEffect(r: Request, now: int)
    ensures ExpiresTo(r, ExpireRecord(r, now))
  {
  }

  lemma RecoveryEffect(e: Request, checks: Revalidation, now: int)
    ensures Settles(e, RecoverRecord(e, checks, now))
  {
    DraftRecovery(e, checks, now);
    InterruptedRecovery(RecoverDraft(e, checks, now), checks, now);
  }

  lemma RestartKeepsGuard(w: World, s: Step, id: string)
    requires Enabled(w, s) && WriteGuard(w, id) && s.Restart?
    ensures WriteGuard(Next(w, s), id)
  {
    PruneDropsCompleted(ExpireAll(if s.readable then w.st.disk else map[], {}, s.now), s.dropped, id);
    LoadKeepsGuard(w.st.disk, s.readable, s.revalidation, s.now, s.dropped, s.write, id in w.unsettled, id);
  }

  lemma LoadKeepsGuard(disk: RequestMap, readable: bool, checks: Revalidation, now: int, dropped: set<string>, write: WriteOutcome, unsettled: bool, id: string)
    requires NamedIn(Cell(disk, id)) && (unsettled ==> Sealed(Cell(disk, id)))
    requires DropsCompleted(ExpireAll(if readable then disk else map[], {}, now), dropped, id)
    ensures StoreGuard(Load(disk, readable, checks, now, dropped, write), None, unsettled, id)
  {
    RestartedCell(disk, readable, checks, now, dropped, write, id);
    if id in disk { Recovery(disk[id], checks, now); }
  }

  predicate LeavesStore(s: Step) {
    s.SpawnGeneration? || s.StartGeneration? || s.FinishGeneration? || s.SpawnCleaner? || s.CleanerReads? ||
    s.CleanerCleans? || s.CleanerStops? || s.CleanerFindsChange? || s.CleanerWakes? ||
    s.CallWrite? || s.WriteUnknown? || s.ReconcileEnded? || s.Leave?
  }

  lemma OtherKeepsGuard(w: World, s: Step, id: string)
    requires Enabled(w, s) && WriteGuard(w, id) && LeavesStore(s)
    ensures WriteGuard(Next(w, s), id) && Next(w, s).st == w.st
  {
  }

  lemma CreationKeepsGuard(w: World, s: Step, id: string)
    requires Enabled(w, s) && NamesRequest(s) && WriteGuard(w, id) && (s.Create? || s.CreateAnalysis?)
    ensures WriteGuard(Next(w, s), id)
  {
    match s
    case Create(newId, input, matches, dropped, write) =>
      PruneDropsCompleted(ExpireAll(w.st.mem, w.confirms.Keys, input.now), dropped, id);
      if newId == id { NewRequestIsGuarded(w, id, input, matches, dropped, write); }
      else { CreateKeepsGuard(w, newId, input, matches, dropped, write, id); }
    case CreateAnalysis(newId, a, dropped, write) =>
      PruneDropsCompleted(ExpireAll(w.st.mem, w.confirms.Keys, a.now), dropped, id);
      if newId == id { NewAnalysisIsGuarded(w, id, a, dropped, write); }
      else { CreateAnalysisKeepsGuard(w, newId, a, dropped, write, id); }
  }

  lemma StepKeepsWriteGuard(w: World, s: Step, id: string)
    requires Enabled(w, s) && NamesRequest(s) && WriteGuard(w, id)
    ensures WriteGuard(Next(w, s), id)
  {
    if LeavesStore(s) { OtherKeepsGuard(w, s, id); }
    else if s.Create? || s.CreateAnalysis? { CreationKeepsGuard(w, s, id); }
    else if s.ConfirmStep? {
      PruneDropsCompleted(ExpireAll(w.st.mem, w.confirms.Keys, s.now), s.dropped, id);
      ConfirmKeepsGuard(w, s.id, s.owner, s.checks, s.now, s.dropped, s.expireWrite, s.write, id);
    }
    else if s.Restart? { RestartKeepsGuard(w, s, id); }
    else if IsSection(s) {
      SectionMoves(w, s, id);
      SectionKeepsConfirmations(w, s);
      MoveKeepsGuard(w.st, Next(w, s).st, ConfirmationOf(w, id), id in w.unsettled, id, SectionPower(w, s, id));
    }
    else { OutcomeKeepsGuard(w, s, id); }
  }
}
