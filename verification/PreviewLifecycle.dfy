/** The life of a preview record: what each operation needs of its caller and of the record, and what
    it makes of the record. Nothing else changes a record but expiry. */
module PreviewLifecycle {
  import opened Wrappers
  import opened Previews
  import opened PreviewProtocol
  import opened PreviewOutcomes

  // --------------------------------------------------------------- who may act

  /** The caller names the record's owner and whatever else the operation must match. */
  predicate Belongs(step: Step, p: Preview) {
    match step
    case Stash(_, _) => false
    case StashIdempotent(_, record) =>
      p.owner == record.owner && p.idempotencyKey == record.idempotencyKey && ActionOf(p).Some? && ActionOf(p) == ActionOf(record)
    case Reserve(_, owner, requestHash, generationHash, _) =>
      p.owner == owner && p.idempotencyKey == requestHash && p.generationHash == generationHash
    case Complete(_, owner, requestHash, generationHash, _) =>
      p.owner == owner && p.idempotencyKey == requestHash && p.generationHash == generationHash
    case CancelIdempotent(_, owner, requestHash, generationHash) =>
      p.owner == owner && p.idempotencyKey == requestHash && p.generationHash == generationHash
    case Revoke(_, owner) => p.owner == owner
    case Begin(_, owner, _, _) => p.owner == owner
    case Finish(_, owner, attemptId, _) => p.owner == owner && p.attemptId == attemptId
    case Take(_, owner) => p.owner == owner
    case Discard(_, owner, attemptId) => p.owner == owner && p.attemptId == attemptId
  }

  /** The record holds a draft that can be handed out: of a kind that has one, for the user who is
      recorded as its initiator. */
  predicate Restorable(p: Preview) {
    && p.initiatedBy != "" && p.owner == p.initiatedBy && p.initiatedAt.Some?
    && ((p.kind == IssueKind && p.issue.Some?) || (p.kind == FixKind && p.fix.Some?))
  }

  /** The draft is one that can be stored. */
  predicate Storable(entry: Option<Entry>) {
    entry.Some? && (entry.value.kind == IssueKind || (entry.value.kind == FixKind && entry.value.fix.Some?))
  }

  /** Some record of the action, other than this key's, is being confirmed or of unknown outcome. */
  ghost predicate Contended(s: State, key: string, p: Preview) {
    exists k :: k in s && k != key && (s[k].status == Confirming || s[k].status == Unknown) &&
                ActionOf(p).Some? && ActionOf(s[k]) == ActionOf(p)
  }

  predicate LeaseRuns(p: Preview, now: int) {
    p.leaseExpires.Some? && now < p.leaseExpires.value
  }

  /** The operation changes the record under its key. */
  ghost predicate Acts(step: Step, s: State, now: int) {
    if step.key !in s then
      match step
      case Stash(_, record) => !Contended(s, step.key, record)
      case StashIdempotent(_, _) => true
      case Reserve(_, _, _, _, _) => true
      case _ => false
    else
      var p := s[step.key];
      Belongs(step, p) &&
      match step
      case StashIdempotent(_, _) => false
      case Reserve(_, _, _, _, _) => p.status == Generating && !LeaseRuns(p, now)
      case Complete(_, _, _, _, entry) => p.status == Generating && Storable(entry)
      case CancelIdempotent(_, _, _, _) => p.status == Generating
      case Revoke(_, _) => p.status == Generating || p.status == Ready
      case Begin(_, _, _, _) =>
        && p.status != Generating && !(p.status == Confirmed && p.resultUrl != "")
        && !(p.status == Confirming && LeaseRuns(p, now)) && Restorable(p) && !Contended(s, step.key, p)
      case Finish(_, _, _, _) => p.status == Confirming
      case Take(_, _) => Restorable(p)
      case _ => true
  }

  lemma ContendedMeansActive(s: State, key: string, p: Preview)
    ensures Contended(s, key, p) <==> ActiveElsewhere(s, key, p)
  {
    forall k | k in s ensures SamePreviewAction(s[k], p) <==> ActionOf(p).Some? && ActionOf(s[k]) == ActionOf(p) {
      SameActionIsEqualAction(s[k], p);
    }
  }

  lemma RestorableMeansRestored(p: Preview)
    ensures Restorable(p) <==> Restore(p).Success?
  {
  }

  lemma StorableMeansPersisted(entry: Option<Entry>, owner: string, now: int)
    ensures Storable(entry) <==> Persist(entry, owner, now).Success?
  {
  }

  /** Each operation acts exactly when it may, and then on its own record only. */
  lemma OpActsExactly(step: Step, s: State, now: int)
    requires step.Stash? ==> step.key !in s
    ensures var op := Op(step, s, now);
            && (op.changed <==> Acts(step, s, now))
            && (!op.changed ==> op.state == s)
            && (forall k :: k != step.key ==> (k in op.state <==> k in s) && (k in s ==> op.state[k] == s[k]))
  {
    if step.Stash? { ContendedMeansActive(s, step.key, step.record); }
    if step.key in s {
      var p := s[step.key];
      ContendedMeansActive(s, step.key, p);
      RestorableMeansRestored(p);
      if step.Complete? { StorableMeansPersisted(step.entry, step.owner, now); }
    }
  }

  /** Nobody changes, or is told anything but an error about, another owner's record. */
  lemma OthersRecordsAreSafe(step: Step, s: State, now: int, owner: string)
    requires step.key in s && s[step.key].owner != owner
    requires match step
             case Stash(_, _) => false
             case StashIdempotent(_, record) => record.owner == owner
             case _ => step.owner == owner
    ensures Op(step, s, now).state == s && Op(step, s, now).error.Some?
  {
  }

  // --------------------------------------------------------------- what becomes of the record

  /** What an operation that acts leaves under its key. */
  predicate Becomes(step: Step, s: State, now: int, q: Option<Preview>) {
    match step
    case CancelIdempotent(_, _, _, _) => q.None?
    case Revoke(_, _) => q.None?
    case Take(_, _) => q.None?
    case Discard(_, _, _) => q.None?
    case Stash(_, record) => q == Some(record.(createdAt := Some(now)))
    case StashIdempotent(_, record) => q == Some(record.(createdAt := Some(now)))
    case Reserve(key, owner, requestHash, generationHash, lease) =>
      && q.Some? && q.value.status == Generating && q.value.owner == owner
      && q.value.idempotencyKey == requestHash && q.value.generationHash == generationHash
      && q.value.leaseExpires == Some(now + lease) && q.value.createdAt == Some(now)
      && (if key in s then SameDraft(q.value, s[key]) && q.value.attemptId == s[key].attemptId
          else q.value.attemptId == "" && q.value.issue.None? && q.value.fix.None? && q.value.binding.None? && q.value.resultUrl == "" &&
               q.value.initiatedBy == owner)
    case Complete(_, owner, requestHash, generationHash, entry) =>
      && q.Some? && entry.Some? && q.value.status == Ready && q.value.owner == owner
      && q.value.idempotencyKey == requestHash && q.value.generationHash == generationHash
      && NoAttempt(q.value) && q.value.resultUrl == "" && q.value.createdAt == Some(now) && Stores(q.value, entry.value, owner, now)
    case Begin(key, _, attemptId, lease) =>
      && q.Some? && key in s && q.value.status == Confirming && SameDraft(q.value, s[key]) && q.value.resultUrl == s[key].resultUrl
      && q.value.attemptId == attemptId && q.value.leaseExpires == Some(now + lease)
      && (q.value.reconciling <==> s[key].status == Unknown)
      && q.value.createdAt == (if s[key].status == Unknown then s[key].createdAt else Some(now))
    case Finish(key, _, _, outcome) =>
      && q.Some? && key in s && SameDraft(q.value, s[key]) && NoAttempt(q.value)
      && if outcome.Url? && outcome.url != ""
         then q.value.status == Confirmed && q.value.resultUrl == outcome.url && q.value.createdAt == Some(now)
         else q.value.status == Unknown && q.value.resultUrl == s[key].resultUrl &&
              q.value.createdAt == if s[key].reconciling then s[key].createdAt else Some(now)
  }

  /** The record holds this draft, as initiated by its owner now. */
  predicate Stores(p: Preview, e: Entry, owner: string, now: int) {
    && p.kind == e.kind && p.failureId == e.failureId && p.patternHash == e.patternHash
    && p.targetRepo == e.targetRepo && p.targetConfig == e.targetConfig && p.verificationVersion == e.verificationVersion
    && p.binding == e.binding && p.initiatedBy == owner && p.initiatedAt == Some(now)
    && (if e.kind == IssueKind then p.issue == Some(e.issue) && p.fix.None? else p.fix == e.fix && p.issue.None?)
  }

  lemma ActingMakes(step: Step, s: State, now: int)
    requires step.Stash? ==> step.key !in s
    requires Op(step, s, now).changed
    ensures var r := Op(step, s, now).state; Becomes(step, s, now, if step.key in r then Some(r[step.key]) else None)
  {
  }

  /** Why an operation that does not act fails, if it does. */
  function Refusal(step: Step, s: State, now: int): Option<PreviewError> {
    if step.key !in s then
      match step
      case Complete(_, _, _, _, _) => Some(Superseded)
      case Discard(_, _, _) => Some(Superseded)
      case Stash(_, _) => Some(Pending)
      case CancelIdempotent(_, _, _, _) => None
      case Revoke(_, _) => None
      case _ => Some(NotFound)
    else
      var p := s[step.key];
      match step
      case Stash(_, _) => Some(Pending)
      case StashIdempotent(_, _) => if Belongs(step, p) then None else Some(TargetChanged)
      case Reserve(_, _, _, _, _) =>
        if !Belongs(step, p) then Some(TargetChanged)
        else if p.status == Generating then Some(Pending)
        else if Restorable(p) then None else Some(InvalidRecord)
      case Complete(_, _, _, _, entry) =>
        if !Belongs(step, p) || p.status != Generating then Some(Superseded)
        else if entry.None? then Some(NotFound) else Some(InvalidRequest)
      case CancelIdempotent(_, _, _, _) => if Belongs(step, p) then None else Some(Superseded)
      case Revoke(_, _) =>
        if !Belongs(step, p) || p.status == Unrecognized then Some(NotFound)
        else if p.status == Confirming then Some(Pending) else Some(OutcomeUnknown)
      case Begin(_, _, _, _) =>
        if !Belongs(step, p) then Some(NotFound)
        else if p.status == Confirmed && p.resultUrl != "" then None
        else if p.status == Generating || ActiveElsewhere(s, step.key, p) || (p.status == Confirming && LeaseRuns(p, now)) then Some(Pending)
        else Some(InvalidRecord)
      case Finish(_, owner, _, _) => if p.owner == owner then Some(Superseded) else Some(NotFound)
      case Take(_, _) => if Belongs(step, p) then Some(InvalidRecord) else Some(NotFound)
      case Discard(_, _, _) => Some(Superseded)
  }

  /** An operation that acts reports no error, but for a finish without a URL; one that does not act
      reports the reason. */
  lemma ErrorsAreExact(step: Step, s: State, now: int)
    requires step.Stash? ==> step.key !in s
    ensures Op(step, s, now).changed ==>
              Op(step, s, now).error == if step.Finish? && step.outcome == Url("") then Some(EmptyResult) else None
    ensures !Op(step, s, now).changed ==> Op(step, s, now).error == Refusal(step, s, now)
  {
    if step.key in s {
      var p := s[step.key];
      RestorableMeansRestored(p);
      if step.StashIdempotent? { SameActionIsEqualAction(p, step.record); }
    }
  }
}
