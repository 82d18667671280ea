/** Who may confirm a request, and when: the exact condition of each answer. */
module RequestAdmission {
  import opened Wrappers
  import opened Requests

  /** The caller may see the request and act on it at all. */
  predicate MayAct(m: RequestMap, id: string, owner: string, checks: ConfirmChecks) {
    id in m && m[id].owner == owner && (m[id].kind == ProposeFix ==> checks.fixActionsEnabled)
  }

  /** A draft is stored; an unknown request without its preview goes by the kind of the request. */
  predicate HasIssue(r: Request) {
    r.issue.Some? && (r.preview == Some(IssueDraft) || (r.preview == None && r.status == Unknown && r.kind == CreateIssue))
  }

  predicate HasFix(r: Request) {
    r.fix.Some? && (r.preview == Some(FixDraft) || (r.preview == None && r.status == Unknown && r.kind == ProposeFix))
  }

  /** A fix draft may only be written as the current verification left it. */
  predicate IsVerifiedFix(r: Request) {
    r.verificationVersion == 5 && r.failureId != "" && r.patternHash != ""
  }

  /** All that a write needs. */
  predicate MayWrite(m: RequestMap, id: string, owner: string, confirming: bool, checks: ConfirmChecks) {
    && MayAct(m, id, owner, checks) && m[id].status == Ready && !confirming
    && (HasIssue(m[id]) || (HasFix(m[id]) && IsVerifiedFix(m[id])))
    && checks.previewValid && (m[id].failureId != "" ==> checks.snapshotCurrent)
  }

  predicate MayReconcile(m: RequestMap, id: string, owner: string, confirming: bool, checks: ConfirmChecks) {
    && MayAct(m, id, owner, checks) && m[id].status == Unknown && !confirming
    && (HasIssue(m[id]) || HasFix(m[id]))
  }

  predicate IsAnswered(m: RequestMap, id: string, owner: string, checks: ConfirmChecks, url: string) {
    MayAct(m, id, owner, checks) && m[id].status == Confirmed && m[id].resultUrl == url && url != ""
  }

  /** Each answer has exactly its condition, and refusal is what is left. */
  lemma VerdictIsExact(m: RequestMap, id: string, owner: string, confirming: bool, checks: ConfirmChecks)
    ensures var v := ConfirmVerdictFor(m, id, owner, confirming, checks);
            && (v.WriteMarked? || v.WriteUnmarked? <==> MayWrite(m, id, owner, confirming, checks))
            && (v.WriteMarked? ==> m[id].failureId != "") && (v.WriteUnmarked? ==> m[id].failureId == "")
            && (v.Reconcile? <==> MayReconcile(m, id, owner, confirming, checks))
            && (forall url :: v == AlreadyConfirmed(url) <==> IsAnswered(m, id, owner, checks, url))
            && (v.Refuse? <==> !MayWrite(m, id, owner, confirming, checks) && !MayReconcile(m, id, owner, confirming, checks) &&
                               !(id in m && IsAnswered(m, id, owner, checks, m[id].resultUrl)))
  {
  }

  /** Nobody but the owner gets any answer but a refusal. */
  lemma OthersAreRefused(m: RequestMap, id: string, owner: string, confirming: bool, checks: ConfirmChecks)
    requires id !in m || m[id].owner != owner
    ensures ConfirmVerdictFor(m, id, owner, confirming, checks) == Refuse
  {
    VerdictIsExact(m, id, owner, confirming, checks);
  }

  /** What the owner, and nobody else, may be answered: a write or a reconciliation only when it may
      be, and always then if the saves succeed; the recorded URL of a confirmed request. */
  predicate AnswersOwner(m: RequestMap, id: string, owner: string, confirming: bool, checks: ConfirmChecks, v: ConfirmVerdict, saved: bool) {
    && (v.WriteMarked? || v.WriteUnmarked? ==> MayWrite(m, id, owner, confirming, checks))
    && (v.Reconcile? ==> MayReconcile(m, id, owner, confirming, checks))
    && (v.AlreadyConfirmed? ==> IsAnswered(m, id, owner, checks, v.url))
    && (saved && MayWrite(m, id, owner, confirming, checks) ==> v == if m[id].failureId != "" then WriteMarked else WriteUnmarked)
    && (saved && MayReconcile(m, id, owner, confirming, checks) ==> v == Reconcile)
  }
}
