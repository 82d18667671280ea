/** Ownership over executions: whose a request is, for which failure and of which kind never changes, in
    memory or on disk, so every write is confirmed by the user who made the request. */
module RequestIdentity {
  import opened Wrappers
  import opened Requests
  import opened RequestLifecycle
  import opened RequestAdmission
  import opened RequestProtocol
  import opened RequestRuns
  import opened RequestAdmitted

  /** Wherever the request is, it has this identity. */
  predicate IsOf(st: Store, id: string, r: Request) {
    (id in st.mem ==> SameIdentity(r, st.mem[id])) && (id in st.disk ==> SameIdentity(r, st.disk[id]))
  }

  lemma MoveKeepsIdentity(st: Store, after: Store, id: string, p: Power, r: Request)
    requires IsOf(st, id, r) && StoreMove(st, after, id, p)
    ensures IsOf(after, id, r)
  {
  }

  lemma ExpiryKeepsIdentity(st: Store, confirming: set<string>, now: int, dropped: set<string>, write: WriteOutcome, id: string, r: Request)
    requires IsOf(st, id, r) && MayPrune(ExpireAll(st.mem, confirming, now), dropped)
    ensures IsOf(Expire(st, confirming, now, dropped), id, r) && IsOf(ExpireAndSave(st, confirming, now, dropped, write), id, r)
  {
    PruneDropsCompleted(ExpireAll(st.mem, confirming, now), dropped, id);
    ExpireMoves(st, confirming, now, dropped, id);
    ExpireAndSaveMoves(st, confirming, now, dropped, write, id);
    MoveKeepsIdentity(st, Expire(st, confirming, now, dropped), id, Power(id in confirming, false, false), r);
    MoveKeepsIdentity(st, ExpireAndSave(st, confirming, now, dropped, write), id, Power(id in confirming, false, false), r);
  }

  lemma CreateKeepsIdentity(w: World, newId: string, input: CreateInput, matches: Request -> bool, dropped: set<string>, write: WriteOutcome, id: string, r: Request)
    requires newId !in w.st.mem && newId != id && IsOf(w.st, id, r)
    requires MayPrune(ExpireAll(w.st.mem, w.confirms.Keys, input.now), dropped)
    ensures IsOf(Created(w, newId, input, matches, dropped, write).st, id, r)
  {
    var st := Expire(w.st, w.confirms.Keys, input.now, dropped);
    ExpiryKeepsIdentity(w.st, w.confirms.Keys, input.now, dropped, write, id, r);
    if Admits(st.mem, w.confirms.Keys, input, matches) {
      AdmissionKeepsIdentity(st, w.confirms.Keys, newId, input, matches, write, id, r);
    }
  }

  lemma AdmissionKeepsIdentity(st: Store, confirming: set<string>, newId: string, input: CreateInput, matches: Request -> bool, write: WriteOutcome, id: string, r: Request)
    requires newId !in st.mem && newId != id && IsOf(st, id, r) && Admits(st.mem, confirming, input, matches)
    ensures IsOf(CreateAdmitted(st, newId, input, write), id, r)
  {
    AdmitsMeaning(st.mem, confirming, input, matches);
    AdmitMoves(st, newId, input, write, id);
    MoveKeepsIdentity(st, CreateAdmitted(st, newId, input, write), id, NO_POWER, r);
  }

  lemma CreateAnalysisKeepsIdentity(w: World, newId: string, a: AnalysisInput, dropped: set<string>, write: WriteOutcome, id: string, r: Request)
    requires newId !in w.st.mem && newId != id && IsOf(w.st, id, r)
    requires MayPrune(ExpireAll(w.st.mem, w.confirms.Keys, a.now), dropped)
    ensures IsOf(CreatedAnalysis(w, newId, a, dropped, write).st, id, r)
  {
    var st := Expire(w.st, w.confirms.Keys, a.now, dropped);
    ExpiryKeepsIdentity(w.st, w.confirms.Keys, a.now, dropped, write, id, r);
    if AdmitsAnalysis(st.mem, a) {
      AdmitAnalysisMoves(st, newId, a, write, id);
      MoveKeepsIdentity(st, CreateAnalysisAdmitted(st, newId, a, write), id, NO_POWER, r);
    }
  }

  lemma OutcomeKeepsIdentity(st: Store, target: string, url: string, now: int, write: WriteOutcome, id: string, r: Request)
    requires IsOf(st, id, r)
    ensures target in st.mem ==> IsOf(MarkUnknown(st, target, now, write), id, r)
    ensures IsOf(ConfirmFailed(st, target, now, write), id, r) && IsOf(ConfirmSucceeded(st, target, url, now, write), id, r)
  {
  }

  lemma ConfirmKeepsIdentity(w: World, target: string, owner: string, checks: ConfirmChecks, now: int, dropped: set<string>,
                             expireWrite: WriteOutcome, write: WriteOutcome, id: string, r: Request)
    requires IsOf(w.st, id, r) && MayPrune(ExpireAll(w.st.mem, w.confirms.Keys, now), dropped)
    ensures IsOf(ConfirmEntered(w, target, owner, checks, now, dropped, expireWrite, write).st, id, r)
  {
    var st := ExpireAndSave(w.st, w.confirms.Keys, now, dropped, expireWrite);
    ExpiryKeepsIdentity(w.st, w.confirms.Keys, now, dropped, expireWrite, id, r);
    if !ExpireFailed(w.st, w.confirms.Keys, now, dropped, expireWrite) { VerdictKeepsIdentity(w.(st := st), target, owner, checks, now, write, id, r); }
  }

  lemma VerdictKeepsIdentity(w: World, target: string, owner: string, checks: ConfirmChecks, now: int, write: WriteOutcome, id: string, r: Request)
    requires IsOf(w.st, id, r)
    ensures IsOf(AfterVerdict(w, target, owner, checks, now, write).st, id, r)
  {
    OutcomeKeepsIdentity(w.st, target, "", now, write, id, r);
  }

  lemma LoadKeepsIdentity(disk: RequestMap, readable: bool, checks: Revalidation, now: int, dropped: set<string>, write: WriteOutcome, id: string, r: Request)
    requires id in disk ==> SameIdentity(r, disk[id])
    requires MayPrune(ExpireAll(if readable then disk else map[], {}, now), dropped)
    ensures IsOf(Load(disk, readable, checks, now, dropped, write), id, r)
  {
    PruneDropsCompleted(ExpireAll(if readable then disk else map[], {}, now), dropped, id);
    RestartedCell(disk, readable, checks, now, dropped, write, id);
    if id in disk { Recovery(disk[id], checks, now); }
  }

  /** The step creates this request; ids are fresh, so it has none before. */
  predicate CreatesRequest(s: Step, id: string) {
    (s.Create? || s.CreateAnalysis?) && s.id == id
  }

  lemma StepKeepsIdentity(w: World, s: Step, id: string, r: Request)
    requires Enabled(w, s) && IsOf(w.st, id, r) && !CreatesRequest(s, id)
    ensures IsOf(Next(w, s).st, id, r)
  {
    if IsSection(s) {
      SectionMoves(w, s, id);
      MoveKeepsIdentity(w.st, Next(w, s).st, id, SectionPower(w, s, id), r);
    } else if LeavesStore(s) {
      StoreUntouched(w, s);
    } else if s.Create? { CreateKeepsIdentity(w, s.id, s.input, s.matchesCurrent, s.dropped, s.write, id, r); }
    else if s.CreateAnalysis? { CreateAnalysisKeepsIdentity(w, s.id, s.analysis, s.dropped, s.write, id, r); }
    else if s.ConfirmStep? { ConfirmKeepsIdentity(w, s.id, s.owner, s.checks, s.now, s.dropped, s.expireWrite, s.write, id, r); }
    else if s.Restart? { LoadKeepsIdentity(w.st.disk, s.readable, s.revalidation, s.now, s.dropped, s.write, id, r); }
    else { OutcomeKeepsIdentity(w.st, s.id, if s.WriteRefused? then "" else s.url, s.now, s.write, id, r); }
  }

  lemma StoreUntouched(w: World, s: Step)
    requires Enabled(w, s) && LeavesStore(s)
    ensures Next(w, s).st == w.st
  {
  }

  /** Over an execution in which the request is not created anew it keeps its identity, in memory and
      on disk, through expiry, cleanup, confirmation, failed saves and restarts. */
  lemma {:induction false} IdentityNeverChanges(run: seq<World>, steps: seq<Step>, id: string, r: Request, i: nat, j: nat)
    requires Execution(run, steps) && i <= j < |run| && IsOf(run[i].st, id, r)
    requires forall m :: i <= m < j ==> !CreatesRequest(steps[m], id)
    ensures IsOf(run[j].st, id, r)
  {
    if i < j {
      IdentityNeverChanges(run, steps, id, r, i, j - 1);
      assert Takes(run, steps, j - 1);
      StepKeepsIdentity(run[j - 1], steps[j - 1], id, r);
    }
  }

  ghost predicate AskedByOwner(run: seq<World>, steps: seq<Step>, id: string, r: Request, k: nat, n: nat)
    requires |run| == |steps| + 1 && n <= |steps|
  {
    exists i :: k <= i < n && steps[i].ConfirmStep? && steps[i].id == id && steps[i].owner == r.owner
  }

  /** So whenever confirmEntry is called for a request, the user it belonged to since before any
      confirmation of it asked for the call. */
  lemma WritesAreAskedByOwner(run: seq<World>, steps: seq<Step>, id: string, r: Request, k: nat, n: nat)
    requires Execution(run, steps) && k <= n < |steps| && steps[n] == CallWrite(id)
    requires id !in run[k].confirms && IsOf(run[k].st, id, r) && forall m :: k <= m < n ==> !CreatesRequest(steps[m], id)
    ensures AskedByOwner(run, steps, id, r, k, n)
  {
    OnlyAdmittedOwnersWrite(run, steps, id, k, n);
    var i :| k <= i < n && AdmitsWriteOf(run[i], steps[i], id);
    IdentityNeverChanges(run, steps, id, r, k, i);
    assert Takes(run, steps, i);
    AskerIsOwner(run[i], steps[i], id, r);
  }

  lemma AskerIsOwner(w: World, s: Step, id: string, r: Request)
    requires Enabled(w, s) && AdmitsWriteOf(w, s, id) && IsOf(w.st, id, r)
    ensures s.owner == r.owner
  {
    ExpiryKeepsIdentity(w.st, w.confirms.Keys, s.now, s.dropped, Written, id, r);
  }

  /** A request starts out as its creator's. */
  lemma CreatorOwns(w: World, s: Step)
    requires Enabled(w, s) && (s.Create? || s.CreateAnalysis?)
    ensures s.Create? ==> IsOf(Next(w, s).st, s.id, NewRequest(s.input, None)) && NewRequest(s.input, None).owner == s.input.owner
    ensures s.CreateAnalysis? ==> IsOf(Next(w, s).st, s.id, NewAnalysisRequest(s.analysis)) && NewAnalysisRequest(s.analysis).owner == s.analysis.owner
  {
    if s.Create? { CreatedIsOwn(w, s.id, s.input, s.matchesCurrent, s.dropped, s.write); }
    else { CreatedAnalysisIsOwn(w, s.id, s.analysis, s.dropped, s.write); }
  }

  lemma CreatedIsOwn(w: World, id: string, input: CreateInput, matches: Request -> bool, dropped: set<string>, write: WriteOutcome)
    requires IsFresh(w, id) && id != input.supersedes
    ensures IsOf(Created(w, id, input, matches, dropped, write).st, id, NewRequest(input, None))
  {
    var st := Expire(w.st, w.confirms.Keys, input.now, dropped);
    if Admits(st.mem, w.confirms.Keys, input, matches) {
      AdmitsMeaning(st.mem, w.confirms.Keys, input, matches);
      AdmittedIsOwn(st, id, input, write);
    }
  }

  lemma AdmittedIsOwn(st: Store, id: string, input: CreateInput, write: WriteOutcome)
    requires id !in st.mem && id !in st.disk && id != input.supersedes && (input.supersedes != "" ==> input.supersedes in st.mem)
    ensures IsOf(CreateAdmitted(st, id, input, write), id, NewRequest(input, None))
  {
  }

  lemma CreatedAnalysisIsOwn(w: World, id: string, a: AnalysisInput, dropped: set<string>, write: WriteOutcome)
    requires IsFresh(w, id)
    ensures IsOf(CreatedAnalysis(w, id, a, dropped, write).st, id, NewAnalysisRequest(a))
  {
  }
}
