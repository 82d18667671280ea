/** The bound on open requests. Superseding leaves the replaced request in cleanup, so the number
    of active requests may exceed the configured maximum by that one. */
module RequestBound {
  import opened Wrappers
  import opened Requests
  import opened RequestProtocol
  import opened RequestRuns
  import RequestCleanup

  predicate Bounded(m: RequestMap) {
    |ActiveIds(m)| <= MAX_ACTIVE_REQUESTS + 1
  }

  predicate StoreBounded(st: Store) {
    Bounded(st.mem) && Bounded(st.disk)
  }

  lemma SubsetSize(a: set<string>, b: set<string>)
    requires a <= b
    ensures |a| <= |b|
  {
    assert b == a + (b - a);
  }

  predicate Within(m: RequestMap, n: RequestMap) {
    ActiveIds(m) <= ActiveIds(n)
  }

  /** Memory gains no active request, and the file is untouched or gains none over memory. */
  predicate Shrinks(st: Store, after: Store) {
    Within(after.mem, st.mem) && (after.disk == st.disk || Within(after.disk, st.mem))
  }

  lemma ShrinkingKeepsBound(st: Store, after: Store)
    requires StoreBounded(st) && Shrinks(st, after)
    ensures StoreBounded(after)
  {
    SubsetSize(ActiveIds(after.mem), ActiveIds(st.mem));
    if after.disk != st.disk { SubsetSize(ActiveIds(after.disk), ActiveIds(st.mem)); }
  }

  lemma ExpireShrinks(st: Store, confirming: set<string>, now: int, dropped: set<string>, write: WriteOutcome)
    ensures Shrinks(st, Expire(st, confirming, now, dropped))
    ensures Shrinks(st, ExpireAndSave(st, confirming, now, dropped, write))
  {
    var e := Expire(st, confirming, now, dropped);
    forall id | id in ActiveIds(e.mem) ensures id in ActiveIds(st.mem) {
      assert id in ExpireAll(st.mem, confirming, now);
    }
  }

  lemma SetKeepsWithin(m: RequestMap, id: string, r: Request)
    requires id in m && (IsActive(r.status) ==> IsActive(m[id].status))
    ensures Within(m[id := r], m)
  {
  }

  lemma TransitionShrinks(st: Store, id: string, cleanup: Cleanup, now: int, write: WriteOutcome)
    ensures Shrinks(st, CleanupTransition(st, id, cleanup, now, write))
  {
    if id in st.mem && (st.mem[id].status == Pending || st.mem[id].status == Ready) {
      SetKeepsWithin(st.mem, id, st.mem[id].(status := Cancelling, cleanup := Some(cleanup), updatedAt := now));
    }
  }

  lemma CompleteShrinks(st: Store, id: string, g: Generated, now: int, write: WriteOutcome)
    ensures Shrinks(st, CompleteGeneration(st, id, g, now, write))
  {
    if id in st.mem && st.mem[id].status == Pending { SetKeepsWithin(st.mem, id, GeneratedRecord(st.mem[id], g, now)); }
  }

  lemma ObserveShrinks(st: Store, id: string, work: WorkRef, now: int, write: WriteOutcome)
    ensures Shrinks(st, ObserveWork(st, id, work, now, write))
  {
    if id in st.mem { SetKeepsWithin(st.mem, id, st.mem[id].(runtime := Some(work), updatedAt := now)); }
  }

  lemma BlockedShrinks(st: Store, id: string, now: int, write: WriteOutcome)
    ensures Shrinks(st, MarkBlocked(st, id, now, write))
  {
    if id in st.mem { SetKeepsWithin(st.mem, id, st.mem[id].(cleanup := Some(BlockedCleanup(st.mem[id])), updatedAt := now)); }
  }

  lemma FinalizeShrinks(st: Store, id: string, now: int, write: WriteOutcome)
    ensures Shrinks(st, FinalizeCleanup(st, id, now, write))
  {
    if id in st.mem { SetKeepsWithin(st.mem, id, FinalRecord(st.mem[id], now)); }
  }

  lemma NoteShrinks(st: Store, id: string, note: Note, now: int, write: WriteOutcome)
    ensures Shrinks(st, AddNote(st, id, note, now, write))
  {
    if id in st.mem { SetKeepsWithin(st.mem, id, Noted(st.mem[id], note, now)); }
  }

  lemma StopShrinks(st: Store, now: int, write: WriteOutcome)
    ensures Shrinks(st, StopActive(st, now, write))
  {
  }

  lemma OutcomeShrinks(st: Store, id: string, url: string, now: int, write: WriteOutcome)
    requires UnknownIn(Cell(st.mem, id))
    ensures Shrinks(st, ConfirmFailed(st, id, now, write))
    ensures Shrinks(st, ConfirmSucceeded(st, id, url, now, write))
  {
  }

  lemma MarkShrinks(st: Store, id: string, now: int, write: WriteOutcome)
    requires id in st.mem && st.mem[id].status == Ready
    ensures Shrinks(st, MarkUnknown(st, id, now, write))
  {
  }

  lemma ConfirmBounded(w: World, id: string, owner: string, checks: ConfirmChecks, now: int, dropped: set<string>, expireWrite: WriteOutcome, write: WriteOutcome)
    requires StoreBounded(w.st)
    ensures StoreBounded(ConfirmEntered(w, id, owner, checks, now, dropped, expireWrite, write).st)
  {
    var st := ExpireAndSave(w.st, w.confirms.Keys, now, dropped, expireWrite);
    ExpireShrinks(w.st, w.confirms.Keys, now, dropped, expireWrite);
    ShrinkingKeepsBound(w.st, st);
    if !ExpireFailed(w.st, w.confirms.Keys, now, dropped, expireWrite) { VerdictBounded(w.(st := st), id, owner, checks, now, write); }
  }

  lemma VerdictBounded(w: World, id: string, owner: string, checks: ConfirmChecks, now: int, write: WriteOutcome)
    requires StoreBounded(w.st)
    ensures StoreBounded(AfterVerdict(w, id, owner, checks, now, write).st)
  {
    VerdictMeaning(w.st.mem, id, owner, id in w.confirms, checks);
    if ConfirmVerdictFor(w.st.mem, id, owner, id in w.confirms, checks).WriteMarked? {
      MarkShrinks(w.st, id, now, write);
      ShrinkingKeepsBound(w.st, MarkUnknown(w.st, id, now, write));
    }
  }

  /** Admission leaves at most one request more than the maximum: the one being replaced. */
  lemma AdmittedMapIsBounded(m: RequestMap, id: string, input: CreateInput)
    requires |ActiveIds(m) - {input.supersedes}| < MAX_ACTIVE_REQUESTS
    requires input.supersedes != "" ==> input.supersedes in m
    ensures Bounded(WithNew(m, id, input))
    ensures input.supersedes == "" && "" !in m ==> |ActiveIds(WithNew(m, id, input))| <= MAX_ACTIVE_REQUESTS
  {
    var others := ActiveIds(m) - {input.supersedes};
    SubsetSize(ActiveIds(WithNew(m, id, input)), others + {input.supersedes} + {id});
    if input.supersedes == "" && "" !in m {
      SubsetSize(ActiveIds(WithNew(m, id, input)), others + {id});
    }
  }

  lemma CreateBounded(w: World, id: string, input: CreateInput, matches: Request -> bool, dropped: set<string>, write: WriteOutcome)
    requires StoreBounded(w.st)
    ensures StoreBounded(Created(w, id, input, matches, dropped, write).st)
  {
    var st := Expire(w.st, w.confirms.Keys, input.now, dropped);
    ExpireShrinks(w.st, w.confirms.Keys, input.now, dropped, write);
    ShrinkingKeepsBound(w.st, st);
    if Admits(st.mem, w.confirms.Keys, input, matches) {
      AdmitsMeaning(st.mem, w.confirms.Keys, input, matches);
      AdmittedMapIsBounded(st.mem, id, input);
    }
  }

  lemma CreateAnalysisBounded(w: World, id: string, a: AnalysisInput, dropped: set<string>, write: WriteOutcome)
    requires StoreBounded(w.st)
    ensures StoreBounded(CreatedAnalysis(w, id, a, dropped, write).st)
  {
    var st := Expire(w.st, w.confirms.Keys, a.now, dropped);
    ExpireShrinks(w.st, w.confirms.Keys, a.now, dropped, write);
    ShrinkingKeepsBound(w.st, st);
    if AdmitsAnalysis(st.mem, a) {
      AnalysisLimit(st.mem, a);
      SubsetSize(ActiveIds(st.mem[id := NewAnalysisRequest(a)]), ActiveIds(st.mem) + {id});
    }
  }

  lemma AnalysisLimit(m: RequestMap, a: AnalysisInput)
    requires AdmitsAnalysis(m, a)
    ensures |ActiveIds(m)| < MAX_ACTIVE_REQUESTS
  {
  }

  lemma RestartBounded(disk: RequestMap, readable: bool, checks: Revalidation, now: int, dropped: set<string>, write: WriteOutcome)
    requires Bounded(disk) && MayPrune(ExpireAll(if readable then disk else map[], {}, now), dropped)
    ensures StoreBounded(Load(disk, readable, checks, now, dropped, write))
  {
    var st := Load(disk, readable, checks, now, dropped, write);
    forall id | id in ActiveIds(st.mem) ensures id in ActiveIds(disk) {
      PruneDropsCompleted(ExpireAll(if readable then disk else map[], {}, now), dropped, id);
      RestartedCell(disk, readable, checks, now, dropped, write, id);
      Recovery(disk[id], checks, now);
    }
    SubsetSize(ActiveIds(st.mem), ActiveIds(disk));
    assert st.disk == disk || st.disk == st.mem;
  }

  lemma SectionShrinks(w: World, s: Step)
    requires Enabled(w, s) && IsSection(s)
    ensures Shrinks(w.st, Next(w, s).st)
  {
    match s
    case ExpireOnly(now, dropped, write) => ExpireShrinks(w.st, w.confirms.Keys, now, dropped, write);
    case ReportWork(id, work, now, write) => ObserveShrinks(w.st, id, work, now, write);
    case CompleteStep(id, result, now, write) => CompleteShrinks(w.st, id, result, now, write);
    case TimeoutStep(id, cleanup, now, write) => TransitionShrinks(w.st, id, cleanup, now, write);
    case CancelStep(id, cleanup, now, write) => TransitionShrinks(w.st, id, cleanup, now, write);
    case NoteStep(id, note, now, write) => NoteShrinks(w.st, id, note, now, write);
    case StopStep(now, write) => StopShrinks(w.st, now, write);
    case CleanerBlocks(pid, now, write) => BlockedShrinks(w.st, w.cleaners[pid].id, now, write);
    case CleanerFinalizes(pid, now, write) => FinalizeShrinks(w.st, w.cleaners[pid].id, now, write);
  }

  lemma StepKeepsBound(w: World, s: Step)
    requires Enabled(w, s) && RequestCleanup.ConfirmsGuarded(w, s) && StoreBounded(w.st)
    ensures StoreBounded(Next(w, s).st)
  {
    if IsSection(s) {
      SectionShrinks(w, s);
      ShrinkingKeepsBound(w.st, Next(w, s).st);
    } else if LeavesStore(s) {
      RequestCleanup.StoreIsLeft(w, s);
    } else if s.Create? { CreateBounded(w, s.id, s.input, s.matchesCurrent, s.dropped, s.write); }
    else if s.CreateAnalysis? { CreateAnalysisBounded(w, s.id, s.analysis, s.dropped, s.write); }
    else if s.ConfirmStep? { ConfirmBounded(w, s.id, s.owner, s.checks, s.now, s.dropped, s.expireWrite, s.write); }
    else if s.Restart? { RestartBounded(w.st.disk, s.readable, s.revalidation, s.now, s.dropped, s.write); }
    else { OutcomeBounded(w, s); }
  }

  lemma OutcomeBounded(w: World, s: Step)
    requires Enabled(w, s) && StoreBounded(w.st) && (s.WriteRefused? || s.WriteSucceeded? || s.ReconcileFound?) && WriteGuard(w, s.id)
    ensures StoreBounded(Next(w, s).st)
  {
    var url := if s.WriteRefused? then "" else s.url;
    OutcomeShrinks(w.st, s.id, url, s.now, s.write);
    ShrinkingKeepsBound(w.st, Next(w, s).st);
  }

  /** Every run that starts at or below it keeps at most one active request more than the maximum,
      in memory and on disk. */
  lemma {:induction false} ActiveRequestsStayBounded(run: seq<World>, steps: seq<Step>, n: nat)
    requires Execution(run, steps) && AllNamed(steps) && RequestCleanup.Start(run[0]) && StoreBounded(run[0].st) && n < |run|
    ensures StoreBounded(run[n].st)
  {
    if n > 0 {
      ActiveRequestsStayBounded(run, steps, n - 1);
      assert Takes(run, steps, n - 1);
      RequestCleanup.StepIsGuarded(run, steps, n - 1);
      StepKeepsBound(run[n - 1], steps[n - 1]);
    }
  }

  // ------------------------------------------------------------------ with or without failure ids

  /** A refused confirmation sets its request back to ready whatever became of it in the meantime,
      which for a request without a failure id need not be unknown, so the bound above does not
      carry over. Pruning still bounds the whole map. */
  predicate Kept(m: RequestMap) {
    |m| <= MAX_KEPT_REQUESTS + 1
  }

  predicate StoreKept(st: Store) {
    Kept(st.mem) && Kept(st.disk)
  }

  /** Memory gains no request, and the file is untouched or holds none that memory did not. */
  predicate KeysShrink(st: Store, after: Store) {
    after.mem.Keys <= st.mem.Keys && (after.disk == st.disk || after.disk.Keys <= st.mem.Keys)
  }

  lemma FewerKeys(m: RequestMap, n: RequestMap)
    requires m.Keys <= n.Keys
    ensures |m| <= |n|
  {
    SubsetSize(m.Keys, n.Keys);
  }

  lemma ShrinkingIsKept(st: Store, after: Store)
    requires StoreKept(st) && KeysShrink(st, after)
    ensures StoreKept(after)
  {
    FewerKeys(after.mem, st.mem);
    if after.disk != st.disk { FewerKeys(after.disk, st.mem); }
  }

  lemma ExpiringShrinksKeys(st: Store, confirming: set<string>, now: int, dropped: set<string>, write: WriteOutcome)
    ensures KeysShrink(st, Expire(st, confirming, now, dropped))
    ensures KeysShrink(st, ExpireAndSave(st, confirming, now, dropped, write))
  {
  }

  lemma GenerationShrinksKeys(st: Store, id: string, work: WorkRef, g: Generated, note: Note, cleanup: Cleanup, now: int, write: WriteOutcome)
    ensures KeysShrink(st, ObserveWork(st, id, work, now, write))
    ensures KeysShrink(st, CompleteGeneration(st, id, g, now, write))
    ensures KeysShrink(st, AddNote(st, id, note, now, write))
    ensures KeysShrink(st, CleanupTransition(st, id, cleanup, now, write))
  {
  }

  lemma CleanupShrinksKeys(st: Store, id: string, now: int, write: WriteOutcome)
    ensures KeysShrink(st, MarkBlocked(st, id, now, write))
    ensures KeysShrink(st, FinalizeCleanup(st, id, now, write))
    ensures KeysShrink(st, StopActive(st, now, write))
  {
  }

  lemma ConfirmationShrinksKeys(st: Store, id: string, url: string, now: int, write: WriteOutcome)
    ensures id in st.mem ==> KeysShrink(st, MarkUnknown(st, id, now, write))
    ensures KeysShrink(st, ConfirmFailed(st, id, now, write))
    ensures KeysShrink(st, ConfirmSucceeded(st, id, url, now, write))
  {
  }

  lemma SectionShrinksKeys(w: World, s: Step)
    requires Enabled(w, s) && IsSection(s)
    ensures KeysShrink(w.st, Next(w, s).st)
  {
    var work, g, none := WorkRef("", ""), GenerationError("", None), Cleanup(None, "", "", None);
    match s
    case ExpireOnly(now, dropped, write) => ExpiringShrinksKeys(w.st, w.confirms.Keys, now, dropped, write);
    case ReportWork(id, reported, now, write) => GenerationShrinksKeys(w.st, id, reported, g, StageNote, none, now, write);
    case CompleteStep(id, result, now, write) => GenerationShrinksKeys(w.st, id, work, result, StageNote, none, now, write);
    case NoteStep(id, note, now, write) => GenerationShrinksKeys(w.st, id, work, g, note, none, now, write);
    case TimeoutStep(id, cleanup, now, write) => GenerationShrinksKeys(w.st, id, work, g, StageNote, cleanup, now, write);
    case CancelStep(id, cleanup, now, write) => GenerationShrinksKeys(w.st, id, work, g, StageNote, cleanup, now, write);
    case StopStep(now, write) => CleanupShrinksKeys(w.st, "", now, write);
    case CleanerBlocks(pid, now, write) => CleanupShrinksKeys(w.st, w.cleaners[pid].id, now, write);
    case CleanerFinalizes(pid, now, write) => CleanupShrinksKeys(w.st, w.cleaners[pid].id, now, write);
  }

  /** After a prune, a map with fewer active requests than the maximum is within the limit. */
  lemma PrunedIsSmall(m: RequestMap, dropped: set<string>, exempt: string)
    requires MayPrune(m, dropped) && |ActiveIds(m - dropped) - {exempt}| < MAX_ACTIVE_REQUESTS
    ensures |m - dropped| <= MAX_KEPT_REQUESTS
  {
    var pruned := m - dropped;
    assert pruned.Keys == m.Keys - dropped;
    if forall id :: id in m && IsCompleted(m[id]) ==> id in dropped {
      forall id | id in pruned ensures id in ActiveIds(pruned) { assert pruned[id] == m[id]; }
      SubsetSize(pruned.Keys, (ActiveIds(pruned) - {exempt}) + {exempt});
    } else {
      assert |pruned.Keys| == |m.Keys| - |dropped|;
    }
  }

  lemma AddedIsKept(m: RequestMap, after: RequestMap, id: string)
    requires |m| <= MAX_KEPT_REQUESTS && after.Keys == m.Keys + {id}
    ensures Kept(after)
  {
    assert |m.Keys + {id}| <= |m.Keys| + 1;
  }

  lemma AdmissionIsKept(st: Store, id: string, input: CreateInput, write: WriteOutcome)
    requires StoreKept(st) && |st.mem| <= MAX_KEPT_REQUESTS && (input.supersedes != "" ==> input.supersedes in st.mem)
    ensures StoreKept(CreateAdmitted(st, id, input, write))
  {
    AddedIsKept(st.mem, WithNew(st.mem, id, input), id);
  }

  lemma AnalysisAdmissionIsKept(st: Store, id: string, a: AnalysisInput, write: WriteOutcome)
    requires StoreKept(st) && |st.mem| <= MAX_KEPT_REQUESTS
    ensures StoreKept(CreateAnalysisAdmitted(st, id, a, write))
  {
    AddedIsKept(st.mem, st.mem[id := NewAnalysisRequest(a)], id);
  }

  lemma CreateIsKept(w: World, id: string, input: CreateInput, matches: Request -> bool, dropped: set<string>, write: WriteOutcome)
    requires StoreKept(w.st) && MayPrune(ExpireAll(w.st.mem, w.confirms.Keys, input.now), dropped)
    ensures StoreKept(Created(w, id, input, matches, dropped, write).st)
  {
    var st := Expire(w.st, w.confirms.Keys, input.now, dropped);
    ExpiringIsKept(w.st, w.confirms.Keys, input.now, dropped, write);
    if Admits(st.mem, w.confirms.Keys, input, matches) {
      AdmittedToSmall(ExpireAll(w.st.mem, w.confirms.Keys, input.now), w.confirms.Keys, input, matches, dropped);
      AdmissionIsKept(st, id, input, write);
    }
  }

  lemma AdmittedToSmall(m: RequestMap, confirming: set<string>, input: CreateInput, matches: Request -> bool, dropped: set<string>)
    requires MayPrune(m, dropped) && Admits(m - dropped, confirming, input, matches)
    ensures |m - dropped| <= MAX_KEPT_REQUESTS && (input.supersedes != "" ==> input.supersedes in m - dropped)
  {
    AdmitsMeaning(m - dropped, confirming, input, matches);
    PrunedIsSmall(m, dropped, input.supersedes);
  }

  lemma ExpiringIsKept(st: Store, confirming: set<string>, now: int, dropped: set<string>, write: WriteOutcome)
    requires StoreKept(st)
    ensures StoreKept(Expire(st, confirming, now, dropped)) && StoreKept(ExpireAndSave(st, confirming, now, dropped, write))
  {
    ExpiringShrinksKeys(st, confirming, now, dropped, write);
    ShrinkingIsKept(st, Expire(st, confirming, now, dropped));
    ShrinkingIsKept(st, ExpireAndSave(st, confirming, now, dropped, write));
  }

  lemma CreateAnalysisIsKept(w: World, id: string, a: AnalysisInput, dropped: set<string>, write: WriteOutcome)
    requires StoreKept(w.st) && MayPrune(ExpireAll(w.st.mem, w.confirms.Keys, a.now), dropped)
    ensures StoreKept(CreatedAnalysis(w, id, a, dropped, write).st)
  {
    var st := Expire(w.st, w.confirms.Keys, a.now, dropped);
    ExpiringIsKept(w.st, w.confirms.Keys, a.now, dropped, write);
    if AdmitsAnalysis(st.mem, a) {
      AnalysisLimit(st.mem, a);
      SubsetSize(ActiveIds(st.mem) - {""}, ActiveIds(st.mem));
      PrunedIsSmall(ExpireAll(w.st.mem, w.confirms.Keys, a.now), dropped, "");
      AnalysisAdmissionIsKept(st, id, a, write);
    }
  }

  lemma ConfirmIsKept(w: World, id: string, owner: string, checks: ConfirmChecks, now: int, dropped: set<string>, expireWrite: WriteOutcome, write: WriteOutcome)
    requires StoreKept(w.st)
    ensures StoreKept(ConfirmEntered(w, id, owner, checks, now, dropped, expireWrite, write).st)
  {
    var st := ExpireAndSave(w.st, w.confirms.Keys, now, dropped, expireWrite);
    ExpiringIsKept(w.st, w.confirms.Keys, now, dropped, expireWrite);
    if !ExpireFailed(w.st, w.confirms.Keys, now, dropped, expireWrite) { VerdictIsKept(w.(st := st), id, owner, checks, now, write); }
  }

  lemma VerdictIsKept(w: World, id: string, owner: string, checks: ConfirmChecks, now: int, write: WriteOutcome)
    requires StoreKept(w.st)
    ensures StoreKept(AfterVerdict(w, id, owner, checks, now, write).st)
  {
    if id in w.st.mem {
      ConfirmationShrinksKeys(w.st, id, "", now, write);
      ShrinkingIsKept(w.st, MarkUnknown(w.st, id, now, write));
    }
  }

  lemma RestartIsKept(disk: RequestMap, readable: bool, checks: Revalidation, now: int, dropped: set<string>, write: WriteOutcome)
    requires Kept(disk)
    ensures StoreKept(Load(disk, readable, checks, now, dropped, write))
  {
    var st := Load(disk, readable, checks, now, dropped, write);
    FewerKeys(st.mem, disk);
    assert st.disk == disk || st.disk == st.mem;
  }

  lemma StepIsKept(w: World, s: Step)
    requires Enabled(w, s) && StoreKept(w.st)
    ensures StoreKept(Next(w, s).st)
  {
    if IsSection(s) {
      SectionShrinksKeys(w, s);
      ShrinkingIsKept(w.st, Next(w, s).st);
    } else if LeavesStore(s) {
      RequestCleanup.StoreIsLeft(w, s);
    } else if s.Create? { CreateIsKept(w, s.id, s.input, s.matchesCurrent, s.dropped, s.write); }
    else if s.CreateAnalysis? { CreateAnalysisIsKept(w, s.id, s.analysis, s.dropped, s.write); }
    else if s.ConfirmStep? { ConfirmIsKept(w, s.id, s.owner, s.checks, s.now, s.dropped, s.expireWrite, s.write); }
    else if s.Restart? { RestartIsKept(w.st.disk, s.readable, s.revalidation, s.now, s.dropped, s.write); }
    else { OutcomeIsKept(w, s); }
  }

  lemma OutcomeIsKept(w: World, s: Step)
    requires Enabled(w, s) && StoreKept(w.st) && (s.WriteRefused? || s.WriteSucceeded? || s.ReconcileFound?)
    ensures StoreKept(Next(w, s).st)
  {
    ConfirmationShrinksKeys(w.st, s.id, if s.WriteRefused? then "" else s.url, s.now, s.write);
    ShrinkingIsKept(w.st, Next(w, s).st);
  }

  /** Every execution at all, whatever its requests are called, keeps at most 201 requests in memory
      and on disk, and so at most 201 active ones. */
  lemma {:induction false} RequestsStayKept(run: seq<World>, steps: seq<Step>, n: nat)
    requires Execution(run, steps) && StoreKept(run[0].st) && n < |run|
    ensures StoreKept(run[n].st)
    ensures |ActiveIds(run[n].st.mem)| <= MAX_KEPT_REQUESTS + 1 && |ActiveIds(run[n].st.disk)| <= MAX_KEPT_REQUESTS + 1
  {
    if n > 0 {
      RequestsStayKept(run, steps, n - 1);
      assert Takes(run, steps, n - 1);
      StepIsKept(run[n - 1], steps[n - 1]);
    }
    SubsetSize(ActiveIds(run[n].st.mem), run[n].st.mem.Keys);
    SubsetSize(ActiveIds(run[n].st.disk), run[n].st.disk.Keys);
  }

  /** A creation whose save fails leaves what expiry left: nothing admitted, the request it would
      have replaced as it was, and no generation started. */
  lemma FailedCreationIsUndone(w: World, id: string, input: CreateInput, matches: Request -> bool, dropped: set<string>, write: WriteOutcome)
    requires write.WriteFailed?
    ensures Created(w, id, input, matches, dropped, write).st.mem == Expire(w.st, w.confirms.Keys, input.now, dropped).mem
    ensures Created(w, id, input, matches, dropped, write).gen == w.gen
  {
  }
}
