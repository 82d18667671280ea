/** A request leaves cleanup only after its runtime work is known to be gone. */
module RequestCleanup {
  import opened Wrappers
  import opened Requests
  import opened RequestProtocol
  import opened RequestRuns

  predicate IsFinal(s: Status) {
    s == Failed || s == Cancelled || s == Expired || s == Confirmed
  }

  /** A move of one request's copy in memory that neither reports nor finalizes. */
  predicate Calm(c: Option<Request>, d: Option<Request>) {
    if c.None? then d.None?
    else if InCleanup(c.value.status) then
      d.Some? && InCleanup(d.value.status) && d.value.runtime == c.value.runtime &&
      (c.value.status == Cancelling ==> d.value.status == Cancelling)
    else if IsFinal(c.value.status) then d.Some? ==> IsFinal(d.value.status)
    else d.Some? ==> d.value.status != Pending
  }

  lemma CalmTwice(c: Option<Request>, d: Option<Request>, e: Option<Request>)
    requires Calm(c, d) && Calm(d, e)
    ensures Calm(c, e)
  {
  }

  lemma ExpireIsCalm(w: World, now: int, dropped: set<string>, write: WriteOutcome, id: string)
    requires DropsCompleted(ExpireAll(w.st.mem, w.confirms.Keys, now), dropped, id)
    ensures Calm(Cell(w.st.mem, id), Cell(Expire(w.st, w.confirms.Keys, now, dropped).mem, id))
    ensures Calm(Cell(w.st.mem, id), Cell(ExpireAndSave(w.st, w.confirms.Keys, now, dropped, write).mem, id))
  {
  }

  lemma CreateIsCalm(w: World, newId: string, input: CreateInput, matches: Request -> bool, dropped: set<string>, write: WriteOutcome, id: string)
    requires newId !in w.st.mem && newId != id
    requires DropsCompleted(ExpireAll(w.st.mem, w.confirms.Keys, input.now), dropped, id)
    ensures Calm(Cell(w.st.mem, id), Cell(Created(w, newId, input, matches, dropped, write).st.mem, id))
  {
    var st := Expire(w.st, w.confirms.Keys, input.now, dropped);
    ExpireIsCalm(w, input.now, dropped, write, id);
    if Admits(st.mem, w.confirms.Keys, input, matches) {
      AdmitsMeaning(st.mem, w.confirms.Keys, input, matches);
      AdmissionIsCalm(st, newId, input, write, id);
      CalmTwice(Cell(w.st.mem, id), Cell(st.mem, id), Cell(CreateAdmitted(st, newId, input, write).mem, id));
    }
  }

  lemma AdmissionIsCalm(st: Store, newId: string, input: CreateInput, write: WriteOutcome, id: string)
    requires newId !in st.mem && newId != id
    requires input.supersedes != "" ==> input.supersedes in st.mem && (st.mem[input.supersedes].status == Pending || st.mem[input.supersedes].status == Ready)
    ensures Calm(Cell(st.mem, id), Cell(CreateAdmitted(st, newId, input, write).mem, id))
  {
  }

  lemma CreateAnalysisIsCalm(w: World, newId: string, a: AnalysisInput, dropped: set<string>, write: WriteOutcome, id: string)
    requires newId !in w.st.mem && newId != id
    requires DropsCompleted(ExpireAll(w.st.mem, w.confirms.Keys, a.now), dropped, id)
    ensures Calm(Cell(w.st.mem, id), Cell(CreatedAnalysis(w, newId, a, dropped, write).st.mem, id))
  {
    ExpireIsCalm(w, a.now, dropped, write, id);
  }

  lemma ConfirmIsCalm(w: World, target: string, owner: string, checks: ConfirmChecks, now: int, dropped: set<string>,
                      expireWrite: WriteOutcome, write: WriteOutcome, id: string)
    requires DropsCompleted(ExpireAll(w.st.mem, w.confirms.Keys, now), dropped, id)
    ensures Calm(Cell(w.st.mem, id), Cell(ConfirmEntered(w, target, owner, checks, now, dropped, expireWrite, write).st.mem, id))
  {
    var st := ExpireAndSave(w.st, w.confirms.Keys, now, dropped, expireWrite);
    ExpireIsCalm(w, now, dropped, expireWrite, id);
    if !ExpireFailed(w.st, w.confirms.Keys, now, dropped, expireWrite) {
      VerdictIsCalm(w.(st := st), target, owner, checks, now, write, id);
      CalmTwice(Cell(w.st.mem, id), Cell(st.mem, id), Cell(AfterVerdict(w.(st := st), target, owner, checks, now, write).st.mem, id));
    }
  }

  lemma VerdictIsCalm(w: World, target: string, owner: string, checks: ConfirmChecks, now: int, write: WriteOutcome, id: string)
    ensures Calm(Cell(w.st.mem, id), Cell(AfterVerdict(w, target, owner, checks, now, write).st.mem, id))
  {
    VerdictMeaning(w.st.mem, target, owner, target in w.confirms, checks);
  }

  lemma OutcomeIsCalm(st: Store, target: string, url: string, now: int, write: WriteOutcome, id: string)
    requires target in st.mem ==> st.mem[target].status == Unknown
    ensures Calm(Cell(st.mem, id), Cell(ConfirmFailed(st, target, now, write).mem, id))
    ensures Calm(Cell(st.mem, id), Cell(ConfirmSucceeded(st, target, url, now, write).mem, id))
  {
  }

  /** Steps that act on the request itself in a way that is not calm. */
  predicate Acts(w: World, s: Step, id: string) {
    match s
    case Create(newId, _, _, _, _) => newId == id
    case CreateAnalysis(newId, _, _, _) => newId == id
    case ReportWork(target, _, _, _) => target == id
    case CompleteStep(target, _, _, _) => target == id
    case CleanerFinalizes(pid, _, _) => pid in w.cleaners && w.cleaners[pid].id == id
    case Restart(_, _, _, _, _) => true
    case _ => false
  }

  lemma SectionIsCalm(w: World, s: Step, id: string)
    requires Enabled(w, s) && IsSection(s) && !Acts(w, s, id)
    ensures Calm(Cell(w.st.mem, id), Cell(Next(w, s).st.mem, id))
  {
    match s
    case ExpireOnly(now, dropped, write) =>
      PruneDropsCompleted(ExpireAll(w.st.mem, w.confirms.Keys, now), dropped, id);
      ExpireIsCalm(w, now, dropped, write, id);
    case ReportWork(target, work, now, write) => OthersAreCalm(w.st, target, work, GenerationError("", None), now, write, id);
    case CompleteStep(target, result, now, write) => OthersAreCalm(w.st, target, WorkRef("", ""), result, now, write, id);
    case TimeoutStep(target, cleanup, now, write) => TransitionIsCalm(w.st, target, cleanup, now, write, id);
    case CancelStep(target, cleanup, now, write) => TransitionIsCalm(w.st, target, cleanup, now, write, id);
    case NoteStep(target, note, now, write) => NoteIsCalm(w.st, target, note, now, write, id);
    case StopStep(now, write) => StopIsCalm(w.st, now, write, id);
    case CleanerBlocks(pid, now, write) => BlockedIsCalm(w.st, w.cleaners[pid].id, now, write, id);
    case CleanerFinalizes(pid, now, write) => OthersAreCalm(w.st, w.cleaners[pid].id, WorkRef("", ""), GenerationError("", None), now, write, id);
  }

  lemma OthersAreCalm(st: Store, target: string, work: WorkRef, g: Generated, now: int, write: WriteOutcome, id: string)
    requires id != target
    ensures Calm(Cell(st.mem, id), Cell(ObserveWork(st, target, work, now, write).mem, id))
    ensures Calm(Cell(st.mem, id), Cell(CompleteGeneration(st, target, g, now, write).mem, id))
    ensures Calm(Cell(st.mem, id), Cell(FinalizeCleanup(st, target, now, write).mem, id))
  {
  }

  lemma TransitionIsCalm(st: Store, target: string, cleanup: Cleanup, now: int, write: WriteOutcome, id: string)
    ensures Calm(Cell(st.mem, id), Cell(CleanupTransition(st, target, cleanup, now, write).mem, id))
  {
  }

  lemma NoteIsCalm(st: Store, target: string, note: Note, now: int, write: WriteOutcome, id: string)
    ensures Calm(Cell(st.mem, id), Cell(AddNote(st, target, note, now, write).mem, id))
  {
  }

  lemma StopIsCalm(st: Store, now: int, write: WriteOutcome, id: string)
    ensures Calm(Cell(st.mem, id), Cell(StopActive(st, now, write).mem, id))
  {
  }

  lemma BlockedIsCalm(st: Store, target: string, now: int, write: WriteOutcome, id: string)
    ensures Calm(Cell(st.mem, id), Cell(MarkBlocked(st, target, now, write).mem, id))
  {
  }

  /** Every step that does not act on the request leaves it where it is in its cleanup. */
  lemma StepIsCalm(w: World, s: Step, id: string)
    requires Enabled(w, s) && !Acts(w, s, id)
    requires s.WriteRefused? || s.WriteSucceeded? || s.ReconcileFound? ==> WriteGuard(w, s.id)
    ensures Calm(Cell(w.st.mem, id), Cell(Next(w, s).st.mem, id))
  {
    if IsSection(s) {
      SectionIsCalm(w, s, id);
    } else if LeavesStore(s) {
      StoreIsLeft(w, s);
    } else {
      match s
      case Create(newId, input, matches, dropped, write) =>
        PruneDropsCompleted(ExpireAll(w.st.mem, w.confirms.Keys, input.now), dropped, id);
        CreateIsCalm(w, newId, input, matches, dropped, write, id);
      case CreateAnalysis(newId, a, dropped, write) =>
        PruneDropsCompleted(ExpireAll(w.st.mem, w.confirms.Keys, a.now), dropped, id);
        CreateAnalysisIsCalm(w, newId, a, dropped, write, id);
      case ConfirmStep(target, owner, checks, now, dropped, expireWrite, write) =>
        PruneDropsCompleted(ExpireAll(w.st.mem, w.confirms.Keys, now), dropped, id);
        ConfirmIsCalm(w, target, owner, checks, now, dropped, expireWrite, write, id);
      case WriteRefused(target, now, write) => OutcomeIsCalm(w.st, target, "", now, write, id);
      case WriteSucceeded(target, url, now, write) => OutcomeIsCalm(w.st, target, url, now, write, id);
      case ReconcileFound(target, url, now, write) => OutcomeIsCalm(w.st, target, url, now, write, id);
    }
  }

  lemma StoreIsLeft(w: World, s: Step)
    requires Enabled(w, s) && LeavesStore(s)
    ensures Next(w, s).st == w.st
  {
  }

  // ------------------------------------------------------------------ generations and cleaners

  function GenOf(w: World, id: string): Option<Generation> {
    if id in w.gen then Some(w.gen[id]) else None
  }

  /** The generation of this request will report no more work. */
  predicate Quiet(c: Option<Request>, g: Option<Generation>) {
    g.Some? ==> g.value.Returned? || g.value.Finished? ||
                (!g.value.Running? && (c.Some? ==> c.value.status != Pending))
  }

  /** A generation that can still report has its last report recorded. */
  predicate Recorded(c: Option<Request>, g: Option<Generation>) {
    c.Some? && g.Some? ==>
      match g.value
      case Running(reported) => RecordedAs(c.value, reported)
      case Admitted => RecordedAs(c.value, None)
      case Spawned => RecordedAs(c.value, None)
      case _ => true
  }

  predicate RecordedAs(r: Request, reported: Option<WorkRef>) {
    && r.status != Ready && r.status != Unknown
    && (InCleanup(r.status) ==> r.runtime == reported)
  }

  /** The recorded work of a request that has entered cleanup can no longer change. */
  predicate Pinned(c: Option<Request>, g: Option<Generation>, work: Option<WorkRef>) {
    c.Some? ==>
      && (c.value.status == Cancelling || IsFinal(c.value.status))
      && (c.value.status == Cancelling ==>
            c.value.runtime == work &&
            (Quiet(c, g) || (work.Some? && work.value.uid != "" && g == Some(Running(work)))))
  }

  predicate CleanerHolds(w: World, c: Cleaner) {
    && (c.generationDone ==> GenIs(w, c.id, Finished))
    && match c.pc
       case Cleaning(work, mayWait) =>
         work.uid != "" || !mayWait || c.generationDone ==> Pinned(Cell(w.st.mem, c.id), GenOf(w, c.id), Some(work))
       case Blocking => c.id in w.changed
       case Finalizing(CleanedWork(work)) => Pinned(Cell(w.st.mem, c.id), GenOf(w, c.id), Some(work)) && work in w.cleaned
       case Finalizing(NoWork) => Pinned(Cell(w.st.mem, c.id), GenOf(w, c.id), None)
       case Finalizing(IdentityChanged) => c.id in w.changed
       case _ => true
  }

  /** Whoever finalizes a request in cleanup may: its recorded work has been cleaned up, or there
      is none and its generation will report none, or its identity was found to have changed. */
  predicate Justified(w: World, id: string) {
    id in w.st.mem && (
      || (w.st.mem[id].runtime.Some? && w.st.mem[id].runtime.value in w.cleaned)
      || (w.st.mem[id].runtime.None? && Quiet(Cell(w.st.mem, id), GenOf(w, id)))
      || id in w.changed)
  }

  /** How a step may move the generation of a request that it does not report work for. */
  predicate GenMove(c: Option<Request>, g: Option<Generation>, h: Option<Generation>) {
    if g.None? then h.None? else
      h.Some? && (
      || h == g
      || (g.value == Admitted && h.value == Spawned)
      || (g.value == Spawned && h.value == Returned)
      || (g.value == Spawned && h.value == Running(None) && c.Some? && c.value.status == Pending)
      || (g.value.Running? && h.value == Returned)
      || (g.value == Returned && h.value == Finished))
  }

  lemma PinnedStays(c: Option<Request>, g: Option<Generation>, d: Option<Request>, h: Option<Generation>, work: Option<WorkRef>)
    requires Pinned(c, g, work) && Calm(c, d) && GenMove(c, g, h)
    ensures Pinned(d, h, work)
  {
  }

  lemma RecordedStays(c: Option<Request>, g: Option<Generation>, d: Option<Request>, h: Option<Generation>)
    requires Recorded(c, g) && Calm(c, d) && GenMove(c, g, h) && (h != g ==> d == c)
    ensures Recorded(d, h)
  {
  }

  lemma CreateGen(w: World, newId: string, input: CreateInput, matches: Request -> bool, dropped: set<string>, write: WriteOutcome, id: string)
    requires newId != id
    ensures GenOf(Created(w, newId, input, matches, dropped, write), id) == GenOf(w, id)
  {
  }

  lemma CreateAnalysisGen(w: World, newId: string, a: AnalysisInput, dropped: set<string>, write: WriteOutcome, id: string)
    requires newId != id
    ensures GenOf(CreatedAnalysis(w, newId, a, dropped, write), id) == GenOf(w, id)
  {
  }

  lemma ConfirmGen(w: World, target: string, owner: string, checks: ConfirmChecks, now: int, dropped: set<string>, expireWrite: WriteOutcome, write: WriteOutcome)
    ensures ConfirmEntered(w, target, owner, checks, now, dropped, expireWrite, write).gen == w.gen
  {
    VerdictGen(w.(st := ExpireAndSave(w.st, w.confirms.Keys, now, dropped, expireWrite)), target, owner, checks, now, write);
  }

  lemma VerdictGen(w: World, target: string, owner: string, checks: ConfirmChecks, now: int, write: WriteOutcome)
    ensures AfterVerdict(w, target, owner, checks, now, write).gen == w.gen
  {
  }

  lemma OtherGen(w: World, s: Step, id: string)
    requires Enabled(w, s) && !s.Restart? && !s.Create? && !s.CreateAnalysis? && !s.ConfirmStep?
    requires s.ReportWork? ==> s.id != id
    ensures GenMove(Cell(w.st.mem, id), GenOf(w, id), GenOf(Next(w, s), id))
  {
  }

  lemma GenerationsMove(w: World, s: Step, id: string)
    requires Enabled(w, s) && !s.Restart?
    requires s.Create? || s.CreateAnalysis? || s.ReportWork? ==> s.id != id
    ensures GenMove(Cell(w.st.mem, id), GenOf(w, id), GenOf(Next(w, s), id))
  {
    match s
    case Create(newId, input, matches, dropped, write) => CreateGen(w, newId, input, matches, dropped, write, id);
    case CreateAnalysis(newId, a, dropped, write) => CreateAnalysisGen(w, newId, a, dropped, write, id);
    case ConfirmStep(target, owner, checks, now, dropped, expireWrite, write) =>
      ConfirmGen(w, target, owner, checks, now, dropped, expireWrite, write);
    case _ => OtherGen(w, s, id);
  }

  // The steps that act on the request itself.

  lemma ReportPins(w: World, s: Step, id: string, work: Option<WorkRef>)
    requires Enabled(w, s) && s.ReportWork? && s.id == id
    ensures Recorded(Cell(w.st.mem, id), GenOf(w, id)) ==> Recorded(Cell(Next(w, s).st.mem, id), GenOf(Next(w, s), id))
    ensures Pinned(Cell(w.st.mem, id), GenOf(w, id), work) ==> Pinned(Cell(Next(w, s).st.mem, id), GenOf(Next(w, s), id), work)
  {
  }

  lemma CompletePins(w: World, s: Step, id: string, work: Option<WorkRef>)
    requires Enabled(w, s) && s.CompleteStep? && s.id == id
    ensures Recorded(Cell(w.st.mem, id), GenOf(w, id)) ==> Recorded(Cell(Next(w, s).st.mem, id), GenOf(Next(w, s), id))
    ensures Pinned(Cell(w.st.mem, id), GenOf(w, id), work) ==> Pinned(Cell(Next(w, s).st.mem, id), GenOf(Next(w, s), id), work)
  {
  }

  lemma FinalizePins(w: World, s: Step, id: string, work: Option<WorkRef>)
    requires Enabled(w, s) && s.CleanerFinalizes? && w.cleaners[s.pid].id == id
    ensures Recorded(Cell(w.st.mem, id), GenOf(w, id)) ==> Recorded(Cell(Next(w, s).st.mem, id), GenOf(Next(w, s), id))
    ensures Pinned(Cell(w.st.mem, id), GenOf(w, id), work) ==> Pinned(Cell(Next(w, s).st.mem, id), GenOf(Next(w, s), id), work)
  {
  }

  lemma NewIsRecorded(w: World, id: string, input: CreateInput, matches: Request -> bool, dropped: set<string>, write: WriteOutcome)
    requires IsFresh(w, id) && id != input.supersedes
    ensures var z := Created(w, id, input, matches, dropped, write); Recorded(Cell(z.st.mem, id), GenOf(z, id))
  {
  }

  lemma NewAnalysisIsRecorded(w: World, id: string, a: AnalysisInput, dropped: set<string>, write: WriteOutcome)
    requires IsFresh(w, id)
    ensures var z := CreatedAnalysis(w, id, a, dropped, write); Recorded(Cell(z.st.mem, id), GenOf(z, id))
  {
  }

  predicate ConfirmsGuarded(w: World, s: Step) {
    s.WriteRefused? || s.WriteSucceeded? || s.ReconcileFound? ==> WriteGuard(w, s.id)
  }

  lemma StepKeepsPinned(w: World, s: Step, id: string, work: Option<WorkRef>)
    requires Enabled(w, s) && ConfirmsGuarded(w, s) && !s.Restart?
    requires s.Create? || s.CreateAnalysis? ==> s.id != id
    requires Pinned(Cell(w.st.mem, id), GenOf(w, id), work)
    ensures Pinned(Cell(Next(w, s).st.mem, id), GenOf(Next(w, s), id), work)
  {
    if s.ReportWork? && s.id == id { ReportPins(w, s, id, work); }
    else if s.CompleteStep? && s.id == id { CompletePins(w, s, id, work); }
    else if s.CleanerFinalizes? && w.cleaners[s.pid].id == id { FinalizePins(w, s, id, work); }
    else {
      StepIsCalm(w, s, id);
      GenerationsMove(w, s, id);
      PinnedStays(Cell(w.st.mem, id), GenOf(w, id), Cell(Next(w, s).st.mem, id), GenOf(Next(w, s), id), work);
    }
  }

  lemma GenerationStepsLeaveStore(w: World, s: Step, id: string)
    requires Enabled(w, s) && !s.Restart? && !Acts(w, s, id) && GenOf(Next(w, s), id) != GenOf(w, id)
    requires Recorded(Cell(w.st.mem, id), GenOf(w, id)) && Calm(Cell(w.st.mem, id), Cell(Next(w, s).st.mem, id))
    ensures Recorded(Cell(Next(w, s).st.mem, id), GenOf(Next(w, s), id))
  {
    match s
    case Create(newId, input, matches, dropped, write) => CreateGen(w, newId, input, matches, dropped, write, id);
    case CreateAnalysis(newId, a, dropped, write) => CreateAnalysisGen(w, newId, a, dropped, write, id);
    case ConfirmStep(target, owner, checks, now, dropped, expireWrite, write) =>
      ConfirmGen(w, target, owner, checks, now, dropped, expireWrite, write);
    case _ => OtherGen(w, s, id);
  }

  lemma StepKeepsRecorded(w: World, s: Step, id: string)
    requires Enabled(w, s) && ConfirmsGuarded(w, s) && Recorded(Cell(w.st.mem, id), GenOf(w, id))
    ensures Recorded(Cell(Next(w, s).st.mem, id), GenOf(Next(w, s), id))
  {
    if s.Restart? { }
    else if s.Create? && s.id == id { NewIsRecorded(w, id, s.input, s.matchesCurrent, s.dropped, s.write); }
    else if s.CreateAnalysis? && s.id == id { NewAnalysisIsRecorded(w, id, s.analysis, s.dropped, s.write); }
    else if s.ReportWork? && s.id == id { ReportPins(w, s, id, None); }
    else if s.CompleteStep? && s.id == id { CompletePins(w, s, id, None); }
    else if s.CleanerFinalizes? && w.cleaners[s.pid].id == id { FinalizePins(w, s, id, None); }
    else {
      StepIsCalm(w, s, id);
      GenerationsMove(w, s, id);
      if GenOf(Next(w, s), id) == GenOf(w, id) {
        RecordedStays(Cell(w.st.mem, id), GenOf(w, id), Cell(Next(w, s).st.mem, id), GenOf(Next(w, s), id));
      } else {
        GenerationStepsLeaveStore(w, s, id);
      }
    }
  }

  // ------------------------------------------------------------------ cleaners

  /** The invariant of cleanup for all requests and all cleaners. */
  predicate CleanupHolds(w: World) {
    && (forall id :: id in w.gen ==> Recorded(Cell(w.st.mem, id), GenOf(w, id)))
    && (forall pid :: pid in w.cleaners ==> CleanerHolds(w, w.cleaners[pid]))
  }

  lemma HistoryGrows(w: World, s: Step)
    requires Enabled(w, s)
    ensures w.cleaned <= Next(w, s).cleaned && w.changed <= Next(w, s).changed
  {
    match s
    case Create(id, input, matches, dropped, write) => CreateHistory(w, id, input, matches, dropped, write);
    case CreateAnalysis(id, a, dropped, write) => CreateAnalysisHistory(w, id, a, dropped, write);
    case ConfirmStep(id, owner, checks, now, dropped, expireWrite, write) =>
      ConfirmHistory(w, id, owner, checks, now, dropped, expireWrite, write);
    case _ =>
  }

  lemma CreateHistory(w: World, id: string, input: CreateInput, matches: Request -> bool, dropped: set<string>, write: WriteOutcome)
    ensures var z := Created(w, id, input, matches, dropped, write); z.cleaned == w.cleaned && z.changed == w.changed && z.cleaners == w.cleaners
  {
  }

  lemma CreateAnalysisHistory(w: World, id: string, a: AnalysisInput, dropped: set<string>, write: WriteOutcome)
    ensures var z := CreatedAnalysis(w, id, a, dropped, write); z.cleaned == w.cleaned && z.changed == w.changed && z.cleaners == w.cleaners
  {
  }

  lemma ConfirmHistory(w: World, id: string, owner: string, checks: ConfirmChecks, now: int, dropped: set<string>, expireWrite: WriteOutcome, write: WriteOutcome)
    ensures var z := ConfirmEntered(w, id, owner, checks, now, dropped, expireWrite, write);
            z.cleaned == w.cleaned && z.changed == w.changed && z.cleaners == w.cleaners
  {
    VerdictHistory(w.(st := ExpireAndSave(w.st, w.confirms.Keys, now, dropped, expireWrite)), id, owner, checks, now, write);
  }

  lemma VerdictHistory(w: World, id: string, owner: string, checks: ConfirmChecks, now: int, write: WriteOutcome)
    ensures var z := AfterVerdict(w, id, owner, checks, now, write);
            z.cleaned == w.cleaned && z.changed == w.changed && z.cleaners == w.cleaners
  {
  }

  /** A cleaner that does not move keeps what it relies on. */
  lemma CleanerStays(w: World, s: Step, c: Cleaner)
    requires Enabled(w, s) && ConfirmsGuarded(w, s) && !s.Restart? && CleanerHolds(w, c)
    requires s.Create? || s.CreateAnalysis? ==> s.id != c.id
    ensures CleanerHolds(Next(w, s), c)
  {
    HistoryGrows(w, s);
    if c.generationDone { FinishedStays(w, s, c.id); }
    match c.pc
    case Cleaning(work, mayWait) =>
      if work.uid != "" || !mayWait || c.generationDone { StepKeepsPinned(w, s, c.id, Some(work)); }
    case Finalizing(cause) =>
      if cause.CleanedWork? { StepKeepsPinned(w, s, c.id, Some(cause.work)); }
      else if cause.NoWork? { StepKeepsPinned(w, s, c.id, None); }
    case _ =>
  }

  lemma FinishedStays(w: World, s: Step, id: string)
    requires Enabled(w, s) && !s.Restart? && GenIs(w, id, Finished)
    requires s.Create? || s.CreateAnalysis? ==> s.id != id
    ensures GenIs(Next(w, s), id, Finished)
  {
    if !s.ReportWork? || s.id != id { GenerationsMove(w, s, id); }
  }

  /** Reading a request in cleanup pins the work it found, unless the cleaner must still wait. */
  lemma ReadingPins(w: World, pid: nat)
    requires CleanerAt(w, pid, Reading) && CleanerHolds(w, w.cleaners[pid])
    requires Recorded(Cell(w.st.mem, w.cleaners[pid].id), GenOf(w, w.cleaners[pid].id))
    ensures pid in CleanerRead(w, pid).cleaners ==> CleanerHolds(CleanerRead(w, pid), CleanerRead(w, pid).cleaners[pid])
  {
    var c := w.cleaners[pid];
    if c.id in w.st.mem && w.st.mem[c.id].status == Cancelling {
      assert Recorded(Cell(w.st.mem, c.id), GenOf(w, c.id));
      assert !DoneOpen(w, c.id) || c.generationDone ==> Quiet(Cell(w.st.mem, c.id), GenOf(w, c.id));
    }
  }

  predicate MovesCleaner(s: Step) {
    s.CleanerReads? || s.CleanerCleans? || s.CleanerFindsChange? || s.CleanerWakes? || s.CleanerBlocks?
  }

  lemma CleanerMoves(w: World, s: Step)
    requires Enabled(w, s) && MovesCleaner(s) && CleanerHolds(w, w.cleaners[s.pid])
    requires Recorded(Cell(w.st.mem, w.cleaners[s.pid].id), GenOf(w, w.cleaners[s.pid].id))
    ensures s.pid in Next(w, s).cleaners ==> CleanerHolds(Next(w, s), Next(w, s).cleaners[s.pid])
  {
    if s.CleanerReads? { ReadingPins(w, s.pid); }
    else if s.CleanerCleans? { CleaningPins(w, s.pid); }
    else if s.CleanerBlocks? { BlockingHolds(w, s.pid, s.now, s.write); }
  }

  lemma CleaningPins(w: World, pid: nat)
    requires pid in w.cleaners && w.cleaners[pid].pc.Cleaning? && CleanerHolds(w, w.cleaners[pid])
    ensures CleanerHolds(CleanerCleaned(w, pid), CleanerCleaned(w, pid).cleaners[pid])
  {
  }

  lemma BlockingHolds(w: World, pid: nat, now: int, write: WriteOutcome)
    requires CleanerAt(w, pid, Blocking) && CleanerHolds(w, w.cleaners[pid])
    ensures pid in Blocked(w, pid, now, write).cleaners ==> CleanerHolds(Blocked(w, pid, now, write), Blocked(w, pid, now, write).cleaners[pid])
  {
  }

  /** Which cleaners a step leaves as they were. */
  lemma OtherCleaners(w: World, s: Step, pid: nat)
    requires Enabled(w, s) && !s.Restart? && pid in Next(w, s).cleaners
    ensures (s.SpawnCleaner? && s.pid == pid && Next(w, s).cleaners[pid] == Cleaner(s.id, false, Reading)) ||
            (MovesCleaner(s) && s.pid == pid) ||
            (pid in w.cleaners && Next(w, s).cleaners[pid] == w.cleaners[pid])
  {
    match s
    case Create(id, input, matches, dropped, write) => CreateHistory(w, id, input, matches, dropped, write);
    case CreateAnalysis(id, a, dropped, write) => CreateAnalysisHistory(w, id, a, dropped, write);
    case ConfirmStep(id, owner, checks, now, dropped, expireWrite, write) =>
      ConfirmHistory(w, id, owner, checks, now, dropped, expireWrite, write);
    case _ =>
  }

  lemma StepKeepsCleaner(w: World, s: Step, pid: nat)
    requires Enabled(w, s) && ConfirmsGuarded(w, s) && CleanupHolds(w) && pid in Next(w, s).cleaners
    ensures CleanerHolds(Next(w, s), Next(w, s).cleaners[pid])
  {
    if !s.Restart? {
      OtherCleaners(w, s, pid);
      if MovesCleaner(s) && s.pid == pid {
        RecordedEverywhere(w, w.cleaners[pid].id);
        CleanerMoves(w, s);
      } else if pid in w.cleaners && Next(w, s).cleaners[pid] == w.cleaners[pid] {
        CleanerStays(w, s, w.cleaners[pid]);
      }
    }
  }

  lemma RecordedEverywhere(w: World, id: string)
    requires CleanupHolds(w)
    ensures Recorded(Cell(w.st.mem, id), GenOf(w, id))
  {
  }

  lemma StepKeepsCleanup(w: World, s: Step)
    requires Enabled(w, s) && ConfirmsGuarded(w, s) && CleanupHolds(w)
    ensures CleanupHolds(Next(w, s))
  {
    var z := Next(w, s);
    forall id | id in z.gen ensures Recorded(Cell(z.st.mem, id), GenOf(z, id)) {
      RecordedEverywhere(w, id);
      StepKeepsRecorded(w, s, id);
    }
    forall pid | pid in z.cleaners ensures CleanerHolds(z, z.cleaners[pid]) {
      StepKeepsCleaner(w, s, pid);
    }
  }

  // ------------------------------------------------------------------ leaving cleanup

  predicate Leaves(w: World, z: World, id: string) {
    && id in w.st.mem && w.st.mem[id].status == Cancelling
    && (id in z.st.mem ==> z.st.mem[id].status != Cancelling)
  }

  /** Apart from a restart, a request leaves cleanup only through a finalize, and only when its
      recorded runtime work was cleaned up, or there is none and its generation can report none, or
      its work was found to belong to someone else. Expiry, supersession, confirmation and shutdown
      never skip this. */
  lemma LeavingCleanupIsJustified(w: World, s: Step, id: string)
    requires Enabled(w, s) && ConfirmsGuarded(w, s) && CleanupHolds(w) && !s.Restart?
    requires Leaves(w, Next(w, s), id)
    ensures s.CleanerFinalizes? && w.cleaners[s.pid].id == id && Justified(w, id)
  {
    if s.CleanerFinalizes? && w.cleaners[s.pid].id == id {
      assert CleanerHolds(w, w.cleaners[s.pid]);
    } else if (s.ReportWork? || s.CompleteStep?) && s.id == id {
      ActsLeaveCancelling(w, s, id);
    } else {
      assert (s.Create? || s.CreateAnalysis?) ==> s.id != id;
      StepIsCalm(w, s, id);
    }
  }

  lemma ActsLeaveCancelling(w: World, s: Step, id: string)
    requires Enabled(w, s) && (s.ReportWork? || s.CompleteStep?) && s.id == id
    requires id in w.st.mem && w.st.mem[id].status == Cancelling
    ensures id in Next(w, s).st.mem && Next(w, s).st.mem[id].status == Cancelling
  {
  }

  /** Every finalize of a request in cleanup is justified when it happens, whether or not its save
      then succeeds. */
  lemma FinalizeIsJustified(w: World, s: Step)
    requires Enabled(w, s) && CleanupHolds(w) && s.CleanerFinalizes?
    requires var id := w.cleaners[s.pid].id; id in w.st.mem && w.st.mem[id].status == Cancelling
    ensures Justified(w, w.cleaners[s.pid].id)
  {
    assert CleanerHolds(w, w.cleaners[s.pid]);
  }

  // The disk copy of a request in cleanup.

  /** A request in cleanup is in cleanup on disk too, with work recorded there if it is in memory,
      unless a finalize has already been tried on it. */
  predicate DiskFollows(st: Store, id: string, finalized: bool) {
    id in st.mem && InCleanup(st.mem[id].status) ==>
      finalized || (id in st.disk && InCleanup(st.disk[id].status) && (st.mem[id].runtime.Some? ==> st.disk[id].runtime.Some?))
  }

  lemma MoveKeepsDisk(st: Store, after: Store, id: string, p: Power, finalized: bool)
    requires StoreMove(st, after, id, p) && DiskFollows(st, id, finalized) && (p.finalizes ==> finalized)
    ensures DiskFollows(after, id, finalized)
  {
  }

  lemma CreateKeepsDisk(w: World, newId: string, input: CreateInput, matches: Request -> bool, dropped: set<string>, write: WriteOutcome, id: string)
    requires newId !in w.st.mem && newId != input.supersedes && DiskFollows(w.st, id, id in w.finalized)
    requires DropsCompleted(ExpireAll(w.st.mem, w.confirms.Keys, input.now), dropped, id)
    ensures DiskFollows(Created(w, newId, input, matches, dropped, write).st, id, id in w.finalized)
  {
    var st := Expire(w.st, w.confirms.Keys, input.now, dropped);
    ExpireMoves(w.st, w.confirms.Keys, input.now, dropped, id);
    MoveKeepsDisk(w.st, st, id, Power(id in w.confirms, false, false), id in w.finalized);
    if Admits(st.mem, w.confirms.Keys, input, matches) {
      AdmitsMeaning(st.mem, w.confirms.Keys, input, matches);
      AdmissionKeepsDisk(st, newId, input, write, id, id in w.finalized);
    }
  }

  lemma AdmissionKeepsDisk(st: Store, newId: string, input: CreateInput, write: WriteOutcome, id: string, finalized: bool)
    requires newId !in st.mem && newId != input.supersedes && DiskFollows(st, id, finalized)
    requires input.supersedes != "" ==> input.supersedes in st.mem && (st.mem[input.supersedes].status == Pending || st.mem[input.supersedes].status == Ready)
    ensures DiskFollows(CreateAdmitted(st, newId, input, write), id, finalized)
  {
    if id != newId {
      AdmitMoves(st, newId, input, write, id);
      MoveKeepsDisk(st, CreateAdmitted(st, newId, input, write), id, NO_POWER, finalized);
    }
  }

  lemma CreateAnalysisKeepsDisk(w: World, newId: string, a: AnalysisInput, dropped: set<string>, write: WriteOutcome, id: string)
    requires newId !in w.st.mem && DiskFollows(w.st, id, id in w.finalized)
    requires DropsCompleted(ExpireAll(w.st.mem, w.confirms.Keys, a.now), dropped, id)
    ensures DiskFollows(CreatedAnalysis(w, newId, a, dropped, write).st, id, id in w.finalized)
  {
    var st := Expire(w.st, w.confirms.Keys, a.now, dropped);
    ExpireMoves(w.st, w.confirms.Keys, a.now, dropped, id);
    MoveKeepsDisk(w.st, st, id, Power(id in w.confirms, false, false), id in w.finalized);
    if AdmitsAnalysis(st.mem, a) { AnalysisAdmissionKeepsDisk(st, newId, a, write, id, id in w.finalized); }
  }

  lemma AnalysisAdmissionKeepsDisk(st: Store, newId: string, a: AnalysisInput, write: WriteOutcome, id: string, finalized: bool)
    requires newId !in st.mem && DiskFollows(st, id, finalized)
    ensures DiskFollows(CreateAnalysisAdmitted(st, newId, a, write), id, finalized)
  {
    if id != newId {
      AdmitAnalysisMoves(st, newId, a, write, id);
      MoveKeepsDisk(st, CreateAnalysisAdmitted(st, newId, a, write), id, NO_POWER, finalized);
    }
  }

  lemma ConfirmKeepsDisk(w: World, target: string, owner: string, checks: ConfirmChecks, now: int, dropped: set<string>,
                         expireWrite: WriteOutcome, write: WriteOutcome, id: string)
    requires DiskFollows(w.st, id, id in w.finalized)
    requires DropsCompleted(ExpireAll(w.st.mem, w.confirms.Keys, now), dropped, id)
    ensures DiskFollows(ConfirmEntered(w, target, owner, checks, now, dropped, expireWrite, write).st, id, id in w.finalized)
  {
    var st := ExpireAndSave(w.st, w.confirms.Keys, now, dropped, expireWrite);
    ExpireAndSaveMoves(w.st, w.confirms.Keys, now, dropped, expireWrite, id);
    MoveKeepsDisk(w.st, st, id, Power(id in w.confirms, false, false), id in w.finalized);
    if !ExpireFailed(w.st, w.confirms.Keys, now, dropped, expireWrite) {
      VerdictKeepsDisk(w.(st := st), target, owner, checks, now, write, id);
    }
  }

  lemma VerdictKeepsDisk(w: World, target: string, owner: string, checks: ConfirmChecks, now: int, write: WriteOutcome, id: string)
    requires DiskFollows(w.st, id, id in w.finalized)
    ensures DiskFollows(AfterVerdict(w, target, owner, checks, now, write).st, id, id in w.finalized)
  {
    VerdictMeaning(w.st.mem, target, owner, target in w.confirms, checks);
    if target != id && target in w.st.mem {
      ConfirmationMoves(w.st, target, "", now, write, id);
      MoveKeepsDisk(w.st, MarkUnknown(w.st, target, now, write), id, NO_POWER, id in w.finalized);
    }
  }

  lemma OutcomeKeepsDisk(st: Store, target: string, url: string, now: int, write: WriteOutcome, id: string, finalized: bool)
    requires DiskFollows(st, id, finalized)
    ensures DiskFollows(ConfirmFailed(st, target, now, write), id, finalized)
    ensures DiskFollows(ConfirmSucceeded(st, target, url, now, write), id, finalized)
  {
    if target != id {
      ConfirmationMoves(st, target, url, now, write, id);
      MoveKeepsDisk(st, ConfirmFailed(st, target, now, write), id, NO_POWER, finalized);
      MoveKeepsDisk(st, ConfirmSucceeded(st, target, url, now, write), id, NO_POWER, finalized);
    }
  }

  lemma RestartKeepsDisk(disk: RequestMap, readable: bool, checks: Revalidation, now: int, dropped: set<string>, write: WriteOutcome, id: string, finalized: bool)
    requires DropsCompleted(ExpireAll(if readable then disk else map[], {}, now), dropped, id)
    ensures DiskFollows(Load(disk, readable, checks, now, dropped, write), id, finalized)
  {
    RestartedCell(disk, readable, checks, now, dropped, write, id);
    if id in disk { Recovery(disk[id], checks, now); }
  }

  lemma SectionKeepsDisk(w: World, s: Step, id: string)
    requires Enabled(w, s) && IsSection(s) && DiskFollows(w.st, id, id in w.finalized)
    ensures DiskFollows(Next(w, s).st, id, id in Next(w, s).finalized)
  {
    SectionMoves(w, s, id);
    SectionFinalized(w, s, id);
    MoveKeepsDisk(w.st, Next(w, s).st, id, SectionPower(w, s, id), id in Next(w, s).finalized);
  }

  lemma SectionFinalized(w: World, s: Step, id: string)
    requires Enabled(w, s) && IsSection(s)
    ensures id in w.finalized ==> id in Next(w, s).finalized
    ensures SectionPower(w, s, id).finalizes ==> id in Next(w, s).finalized
  {
  }

  lemma StepKeepsDisk(w: World, s: Step, id: string)
    requires Enabled(w, s) && DiskFollows(w.st, id, id in w.finalized)
    ensures DiskFollows(Next(w, s).st, id, id in Next(w, s).finalized)
  {
    if IsSection(s) { SectionKeepsDisk(w, s, id); }
    else if LeavesStore(s) { StoreIsLeft(w, s); LeavingFinalized(w, s); }
    else {
      match s
      case Create(newId, input, matches, dropped, write) =>
        PruneDropsCompleted(ExpireAll(w.st.mem, w.confirms.Keys, input.now), dropped, id);
        CreateKeepsDisk(w, newId, input, matches, dropped, write, id);
        CreateFinalized(w, newId, input, matches, dropped, write);
      case CreateAnalysis(newId, a, dropped, write) =>
        PruneDropsCompleted(ExpireAll(w.st.mem, w.confirms.Keys, a.now), dropped, id);
        CreateAnalysisKeepsDisk(w, newId, a, dropped, write, id);
      case ConfirmStep(target, owner, checks, now, dropped, expireWrite, write) =>
        PruneDropsCompleted(ExpireAll(w.st.mem, w.confirms.Keys, now), dropped, id);
        ConfirmKeepsDisk(w, target, owner, checks, now, dropped, expireWrite, write, id);
        ConfirmFinalized(w, target, owner, checks, now, dropped, expireWrite, write);
      case WriteRefused(target, now, write) => OutcomeKeepsDisk(w.st, target, "", now, write, id, id in w.finalized);
      case WriteSucceeded(target, url, now, write) => OutcomeKeepsDisk(w.st, target, url, now, write, id, id in w.finalized);
      case ReconcileFound(target, url, now, write) => OutcomeKeepsDisk(w.st, target, url, now, write, id, id in w.finalized);
      case Restart(readable, checks, now, dropped, write) =>
        PruneDropsCompleted(ExpireAll(if readable then w.st.disk else map[], {}, now), dropped, id);
        RestartKeepsDisk(w.st.disk, readable, checks, now, dropped, write, id, id in w.finalized);
    }
  }

  lemma LeavingFinalized(w: World, s: Step)
    requires Enabled(w, s) && LeavesStore(s)
    ensures Next(w, s).finalized == w.finalized
  {
  }

  lemma CreateFinalized(w: World, id: string, input: CreateInput, matches: Request -> bool, dropped: set<string>, write: WriteOutcome)
    ensures Created(w, id, input, matches, dropped, write).finalized == w.finalized
  {
  }

  lemma ConfirmFinalized(w: World, id: string, owner: string, checks: ConfirmChecks, now: int, dropped: set<string>, expireWrite: WriteOutcome, write: WriteOutcome)
    ensures ConfirmEntered(w, id, owner, checks, now, dropped, expireWrite, write).finalized == w.finalized
  {
    VerdictFinalized(w.(st := ExpireAndSave(w.st, w.confirms.Keys, now, dropped, expireWrite)), id, owner, checks, now, write);
  }

  lemma VerdictFinalized(w: World, id: string, owner: string, checks: ConfirmChecks, now: int, write: WriteOutcome)
    ensures AfterVerdict(w, id, owner, checks, now, write).finalized == w.finalized
  {
  }

  /** A restart from a readable state file takes a request out of cleanup only if a justified
      finalize had been tried on it before, or if no work is recorded for it in memory or on disk,
      the file still says pending, and the restart has ended every generation. */
  lemma RestartNeverSkipsCleanup(w: World, s: Step, id: string)
    requires Enabled(w, s) && s.Restart? && s.readable && DiskFollows(w.st, id, id in w.finalized)
    requires Leaves(w, Next(w, s), id)
    ensures id in w.finalized ||
            (id in w.st.disk && w.st.disk[id].status == Pending && w.st.disk[id].runtime.None? && w.st.mem[id].runtime.None?)
    ensures Next(w, s).gen == map[]
  {
    PruneDropsCompleted(ExpireAll(w.st.disk, {}, s.now), s.dropped, id);
    RestartedCell(w.st.disk, true, s.revalidation, s.now, s.dropped, s.write, id);
    if id in w.st.disk { Recovery(w.st.disk[id], s.revalidation, s.now); }
  }

  // ------------------------------------------------------------------ executions

  /** A server just started on a state file, with nothing running yet. */
  ghost predicate Start(w: World) {
    && w.confirms == map[] && w.gen == map[] && w.cleaners == map[] && w.unsettled == {}
    && w.st.mem == w.st.disk && forall id :: id in w.st.mem ==> w.st.mem[id].failureId != ""
  }

  lemma {:induction false} ExecutionKeepsCleanup(run: seq<World>, steps: seq<Step>, n: nat)
    requires Execution(run, steps) && AllNamed(steps) && Start(run[0]) && n < |run|
    ensures CleanupHolds(run[n])
  {
    if n > 0 {
      ExecutionKeepsCleanup(run, steps, n - 1);
      assert Takes(run, steps, n - 1);
      StepIsGuarded(run, steps, n - 1);
      StepKeepsCleanup(run[n - 1], steps[n - 1]);
    }
  }

  lemma StepIsGuarded(run: seq<World>, steps: seq<Step>, n: nat)
    requires Execution(run, steps) && AllNamed(steps) && Start(run[0]) && n < |steps|
    ensures ConfirmsGuarded(run[n], steps[n])
  {
    var s := steps[n];
    if s.WriteRefused? || s.WriteSucceeded? || s.ReconcileFound? {
      StartIsGuarded(run[0], s.id);
      ExecutionKeepsGuard(run, steps, s.id, n);
    }
  }

  lemma {:induction false} ExecutionKeepsDisk(run: seq<World>, steps: seq<Step>, id: string, n: nat)
    requires Execution(run, steps) && Start(run[0]) && n < |run|
    ensures DiskFollows(run[n].st, id, id in run[n].finalized)
  {
    if n > 0 {
      ExecutionKeepsDisk(run, steps, id, n - 1);
      assert Takes(run, steps, n - 1);
      StepKeepsDisk(run[n - 1], steps[n - 1], id);
    }
  }

  /** In every execution, a request leaves cleanup only in one of the permitted ways. */
  lemma CleanupIsNeverSkipped(run: seq<World>, steps: seq<Step>, n: nat, id: string)
    requires Execution(run, steps) && AllNamed(steps) && Start(run[0]) && n < |steps|
    requires Leaves(run[n], run[n + 1], id)
    requires steps[n].Restart? ==> steps[n].readable
    ensures if steps[n].Restart?
            then id in run[n].finalized || (id in run[n].st.disk && run[n].st.disk[id].status == Pending &&
                   run[n].st.disk[id].runtime.None? && run[n].st.mem[id].runtime.None? && run[n + 1].gen == map[])
            else steps[n].CleanerFinalizes? && Justified(run[n], id)
  {
    assert Takes(run, steps, n);
    if steps[n].Restart? {
      ExecutionKeepsDisk(run, steps, id, n);
      RestartNeverSkipsCleanup(run[n], steps[n], id);
    } else {
      ExecutionKeepsCleanup(run, steps, n);
      StepIsGuarded(run, steps, n);
      LeavingCleanupIsJustified(run[n], steps[n], id);
    }
  }

  // ------------------------------------------------------------------ requests without a failure id

  lemma EnteredIsReady(w: World, s: Step)
    requires Enabled(w, s) && EntersUnmarked(w, s)
    ensures var z := Next(w, s); s.id in z.st.mem && z.st.mem[s.id].status == Ready && ConfirmAt(z, s.id, Marked)
  {
    UnmarkedEnters(w, s);
  }

  lemma CancelGoes(w: World, id: string, cleanup: Cleanup, now: int)
    requires id in w.st.mem && w.st.mem[id].status == Ready
    ensures Goes(w, CancelStep(id, cleanup, now, Written), w.(st := CleanupTransition(w.st, id, cleanup, now, Written)))
    ensures var mem := CleanupTransition(w.st, id, cleanup, now, Written).mem; id in mem && mem[id].status == Cancelling
  {
  }

  lemma RefusalLeaves(w: World, id: string, now: int)
    requires ConfirmAt(w, id, Calling) && id in w.st.mem && w.st.mem[id].status == Cancelling
    ensures Enabled(w, WriteRefused(id, now, Written)) && Leaves(w, Next(w, WriteRefused(id, now, Written)), id)
  {
  }

  /** That nothing skips cleanup needs the failure id too: from every world in which a confirmation
      of a request without one is admitted, a cancellation during the call followed by a refusal
      makes the request ready again out of its cleanup. */
  lemma UnnamedRequestMaySkipCleanup(w: World, s: Step, cleanup: Cleanup) returns (a: World, b: World, c: World)
    requires Enabled(w, s) && EntersUnmarked(w, s)
    ensures Goes(w, s, a) && Goes(a, CallWrite(s.id), b) && Goes(b, CancelStep(s.id, cleanup, s.now, Written), c)
    ensures Enabled(c, WriteRefused(s.id, s.now, Written)) && Leaves(c, Next(c, WriteRefused(s.id, s.now, Written)), s.id)
  {
    EnteredIsReady(w, s);
    a := Next(w, s);
    CallGoes(a, s.id);
    b := a.(confirms := a.confirms[s.id := Calling], unsettled := a.unsettled + {s.id});
    CancelGoes(b, s.id, cleanup, s.now);
    c := b.(st := CleanupTransition(b.st, s.id, cleanup, s.now, Written));
    RefusalLeaves(c, s.id, s.now);
  }
}
