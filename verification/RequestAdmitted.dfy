/** No execution calls confirmEntry or reconciles without a confirmation by the owner that met every
    condition. */
module RequestAdmitted {
  import opened Wrappers
  import opened Requests
  import opened RequestAdmission
  import opened RequestProtocol
  import opened RequestRuns

  /** The step is a confirmation of this request that was allowed to write when it was made. */
  predicate AdmitsWriteOf(w: World, s: Step, id: string) {
    && s.ConfirmStep? && s.id == id
    && MayWrite(Expire(w.st, w.confirms.Keys, s.now, s.dropped).mem, id, s.owner, id in w.confirms, s.checks)
  }

  predicate AdmitsReconcileOf(w: World, s: Step, id: string) {
    && s.ConfirmStep? && s.id == id
    && MayReconcile(Expire(w.st, w.confirms.Keys, s.now, s.dropped).mem, id, s.owner, id in w.confirms, s.checks)
  }

  lemma MarkedIsAdmitted(w: World, id: string, owner: string, checks: ConfirmChecks, now: int, dropped: set<string>,
                         expireWrite: WriteOutcome, write: WriteOutcome, other: string)
    ensures var z := ConfirmEntered(w, id, owner, checks, now, dropped, expireWrite, write);
            var m := Expire(w.st, w.confirms.Keys, now, dropped).mem;
            && (ConfirmAt(z, other, Marked) ==> ConfirmAt(w, other, Marked) || (other == id && MayWrite(m, id, owner, id in w.confirms, checks)))
            && (ConfirmAt(z, other, ReconcileCalling) ==>
                  ConfirmAt(w, other, ReconcileCalling) || (other == id && MayReconcile(m, id, owner, id in w.confirms, checks)))
  {
    VerdictIsExact(Expire(w.st, w.confirms.Keys, now, dropped).mem, id, owner, id in w.confirms, checks);
  }

  lemma OtherStepsAdmitNothing(w: World, s: Step, id: string)
    requires Enabled(w, s) && !s.ConfirmStep?
    ensures ConfirmAt(Next(w, s), id, Marked) ==> ConfirmAt(w, id, Marked)
    ensures ConfirmAt(Next(w, s), id, ReconcileCalling) ==> ConfirmAt(w, id, ReconcileCalling)
  {
    if s.Create? { CreatedConfirms(w, s.id, s.input, s.matchesCurrent, s.dropped, s.write); }
    else if s.CreateAnalysis? { CreatedAnalysisConfirms(w, s.id, s.analysis, s.dropped, s.write); }
    else if IsSection(s) { SectionKeepsConfirmations(w, s); }
  }

  lemma CreatedConfirms(w: World, id: string, input: CreateInput, matches: Request -> bool, dropped: set<string>, write: WriteOutcome)
    ensures Created(w, id, input, matches, dropped, write).confirms == w.confirms
  {
  }

  lemma CreatedAnalysisConfirms(w: World, id: string, a: AnalysisInput, dropped: set<string>, write: WriteOutcome)
    ensures CreatedAnalysis(w, id, a, dropped, write).confirms == w.confirms
  {
  }

  lemma StepAdmits(w: World, s: Step, id: string)
    requires Enabled(w, s)
    ensures ConfirmAt(Next(w, s), id, Marked) ==> ConfirmAt(w, id, Marked) || AdmitsWriteOf(w, s, id)
    ensures ConfirmAt(Next(w, s), id, ReconcileCalling) ==> ConfirmAt(w, id, ReconcileCalling) || AdmitsReconcileOf(w, s, id)
  {
    if s.ConfirmStep? {
      MarkedIsAdmitted(w, s.id, s.owner, s.checks, s.now, s.dropped, s.expireWrite, s.write, id);
    } else {
      OtherStepsAdmitNothing(w, s, id);
    }
  }

  /** From world k to world n some step admitted a write of this request. */
  ghost predicate WriteAdmitted(run: seq<World>, steps: seq<Step>, id: string, k: nat, n: nat)
    requires |run| == |steps| + 1 && n <= |steps|
  {
    exists i :: k <= i < n && AdmitsWriteOf(run[i], steps[i], id)
  }

  ghost predicate ReconcileAdmitted(run: seq<World>, steps: seq<Step>, id: string, k: nat, n: nat)
    requires |run| == |steps| + 1 && n <= |steps|
  {
    exists i :: k <= i < n && AdmitsReconcileOf(run[i], steps[i], id)
  }

  lemma {:induction false} CallersWereAdmitted(run: seq<World>, steps: seq<Step>, id: string, k: nat, n: nat)
    requires Execution(run, steps) && k <= n < |run| && id !in run[k].confirms
    ensures ConfirmAt(run[n], id, Marked) ==> WriteAdmitted(run, steps, id, k, n)
    ensures ConfirmAt(run[n], id, ReconcileCalling) ==> ReconcileAdmitted(run, steps, id, k, n)
  {
    if n > k {
      CallersWereAdmitted(run, steps, id, k, n - 1);
      assert Takes(run, steps, n - 1);
      StepAdmits(run[n - 1], steps[n - 1], id);
    }
  }

  /** In every execution confirmEntry is called, and a reconciliation answers, only after a
      confirmation by the request's owner that met every condition. */
  lemma OnlyAdmittedOwnersWrite(run: seq<World>, steps: seq<Step>, id: string, k: nat, n: nat)
    requires Execution(run, steps) && k <= n < |steps| && id !in run[k].confirms
    ensures steps[n] == CallWrite(id) ==> WriteAdmitted(run, steps, id, k, n)
    ensures steps[n].ReconcileFound? && steps[n].id == id ==> ReconcileAdmitted(run, steps, id, k, n)
  {
    CallersWereAdmitted(run, steps, id, k, n);
    assert Takes(run, steps, n);
  }
}
