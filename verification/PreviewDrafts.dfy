/** What is confirmed is what was previewed: a draft is stored and handed out unchanged, and no update
    alters it in between. */
module PreviewDrafts {
  import opened Wrappers
  import opened Order
  import opened Previews
  import opened PreviewFitting
  import opened PreviewProtocol
  import opened PreviewOutcomes
  import opened PreviewLifecycle

  // --------------------------------------------------------------- storing and handing out

  /** The entry handed out for a record: its draft, its identity and who initiated it. */
  predicate HandsOut(p: Preview, e: Entry) {
    && e.kind == p.kind && e.failureId == p.failureId && e.patternHash == p.patternHash
    && e.targetRepo == p.targetRepo && e.targetConfig == p.targetConfig && e.verificationVersion == p.verificationVersion
    && e.binding == p.binding && e.initiatedBy == p.initiatedBy && e.initiatedAt == p.initiatedAt
    && (p.kind == IssueKind ==> p.issue == Some(e.issue)) && (p.kind == FixKind ==> p.fix.Some? && e.fix == p.fix)
  }

  lemma RestoreIsFaithful(p: Preview)
    ensures Restore(p).Success? <==> Restorable(p)
    ensures Restore(p).Success? ==> HandsOut(p, Restore(p).value)
  {
  }

  /** Storing a draft and handing it out gives it back, as initiated by its owner when it was stored. */
  lemma StoredDraftComesBack(entry: Option<Entry>, owner: string, now: int)
    requires Storable(entry) && owner != ""
    ensures Persist(entry, owner, now).Success? && Restore(Persist(entry, owner, now).value).Success?
    ensures var e, back := entry.value, Restore(Persist(entry, owner, now).value).value;
            && back.initiatedBy == owner && back.initiatedAt == Some(now)
            && back.kind == e.kind && (e.kind == IssueKind ==> back.issue == e.issue) && (e.kind == FixKind ==> back.fix == e.fix)
            && back.failureId == e.failureId && back.patternHash == e.patternHash && back.targetRepo == e.targetRepo
            && back.targetConfig == e.targetConfig && back.verificationVersion == e.verificationVersion && back.binding == e.binding
    ensures var p := Persist(entry, owner, now).value;
            p.owner == owner && p.status == Ready && NoAttempt(p) && p.createdAt == Some(now) && Stores(p, entry.value, owner, now)
  {
  }

  /** The step puts a draft, or the place for one, under the key. */
  ghost predicate StoresAnew(disk: State, e: Event, k: string) {
    && e.step.key == k && (e.step.Stash? || e.step.StashIdempotent? || e.step.Reserve? || e.step.Complete?)
    && Op(e.step, Opened(disk, e.now), e.now).changed
  }

  lemma OpeningKeepsDraft(disk: State, now: int, k: string)
    requires k in Opened(disk, now)
    ensures k in disk && SameDraft(Opened(disk, now)[k], disk[k])
  {
    if !Migrates(disk) { assert EvictRecord(disk[k], now) == Some(Opened(disk, now)[k]); }
  }

  lemma OpKeepsDraft(step: Step, s: State, now: int, k: string)
    requires step.Stash? ==> step.key !in s
    requires k in Op(step, s, now).state
    ensures (k in s && SameDraft(Op(step, s, now).state[k], s[k])) ||
            (step.key == k && Op(step, s, now).changed && (step.Stash? || step.StashIdempotent? || step.Reserve? || step.Complete?))
  {
    OpActsExactly(step, s, now);
    if Op(step, s, now).changed && step.key == k { ActingMakes(step, s, now); }
  }

  /** No update alters the draft of a record it does not store anew. */
  lemma UpdateKeepsDraft(disk: State, e: Event, limits: Limits, k: string)
    requires ValidStep(disk, e.step) && k in After(disk, e, limits) && !StoresAnew(disk, e, k)
    ensures k in disk && SameDraft(After(disk, e, limits)[k], disk[k])
  {
    var s := Opened(disk, e.now);
    var op := Op(e.step, s, e.now);
    CommitIsAllOrNothing(disk, e.now, op, ProtectedKey(e.step), limits, e.write);
    if After(disk, e, limits) != disk {
      FittingRemovesOldestPrefix(op.state, ProtectedKey(e.step), limits);
      OpKeepsDraft(e.step, s, e.now, k);
      OpeningKeepsDraft(disk, e.now, k);
    }
  }

  /** Over a run: while a record is kept and not stored anew, its draft is the one it had. */
  lemma {:induction false} DraftStays(states: seq<State>, events: seq<Event>, limits: Limits, i: nat, j: nat, k: string)
    requires Run(states, events, limits) && i <= j <= |events|
    requires forall m :: i <= m <= j ==> k in states[m]
    requires forall m :: i <= m < j ==> !StoresAnew(states[m], events[m], k)
    ensures SameDraft(states[j][k], states[i][k])
  {
    if i < j {
      DraftStays(states, events, limits, i, j - 1, k);
      assert IsStep(states, events, limits, j - 1);
      UpdateKeepsDraft(states[j - 1], events[j - 1], limits, k);
    }
  }

  /** So every record that can be handed out at the end hands out the same entry as at the start. */
  lemma PreviewIsWhatIsConfirmed(states: seq<State>, events: seq<Event>, limits: Limits, i: nat, j: nat, k: string)
    requires Run(states, events, limits) && i <= j <= |events|
    requires forall m :: i <= m <= j ==> k in states[m]
    requires forall m :: i <= m < j ==> !StoresAnew(states[m], events[m], k)
    ensures Restore(states[j][k]) == Restore(states[i][k])
  {
    DraftStays(states, events, limits, i, j, k);
  }

  // --------------------------------------------------------------- loading, expiry and limits

  /** Loading drops exactly the ready fixes of another verification version than 5, or without a
      failure id or a pattern hash. */
  lemma LoadingIsExact(disk: State, k: string)
    requires k in disk
    ensures var p := disk[k];
            k !in Loaded(disk) <==>
              p.status == Ready && p.kind == FixKind && (p.verificationVersion != 5 || p.failureId == "" || p.patternHash == "")
    ensures k in Loaded(disk) ==> Loaded(disk)[k] == disk[k]
  {
  }

  /** Last touched more than fifteen minutes ago. */
  predicate IsOld(p: Preview, now: int) {
    p.createdAt.Some? && now - p.createdAt.value > 900_000_000_000
  }

  /** Expiry deletes generations whose lease ran out and old or undated records, never an attempt
      or an unknown outcome with a date; */
  lemma ExpiryDeletesExactly(p: Preview, now: int)
    ensures EvictRecord(p, now).None? <==>
              match p.status
              case Generating => !LeaseRuns(p, now)
              case Confirming => false
              case Unknown => p.createdAt.None?
              case _ => p.createdAt.None? || IsOld(p, now)
  {
  }

  /** and changes only attempts whose lease ran out, into unknown outcomes whose clock starts unless
      it was already running, and old unknown outcomes, into ready drafts. */
  lemma ExpiryChangesExactly(p: Preview, now: int)
    requires EvictRecord(p, now).Some?
    ensures var q := EvictRecord(p, now).value;
            if p.status == Confirming && !LeaseRuns(p, now) then
              && SameDraft(q, p) && q.resultUrl == p.resultUrl && q.status == Unknown && NoAttempt(q)
              && q.createdAt == if p.reconciling then p.createdAt else Some(now)
            else if p.status == Unknown && IsOld(p, now) then
              q == p.(status := Ready, createdAt := Some(now))
            else q == p
  {
  }

  /** A state fits with at most 128 records and its size within the configured limit, or 64 MiB if
      none is configured. */
  lemma LimitsAreExact(limits: Limits, s: State)
    ensures limits.Fits(s) <==> |s| <= 128 && limits.encodedSize(s) <= if limits.maxBytes > 0 then limits.maxBytes else 67_108_864
    ensures FitError(s, limits) == if |s| > 128 then Some(TooManyRecords) else if limits.Fits(s) then None else Some(TooManyBytes)
  {
  }

  /** Created before, as the file says; a record without a time counts as the oldest. */
  predicate NoYounger(p: Preview, q: Preview) {
    p.createdAt.None? || (q.createdAt.Some? && p.createdAt.value <= q.createdAt.value)
  }

  /** Whatever fitting removes is no younger than any removable record it keeps. */
  lemma FittingRemovesOldest(s: State, protectedKey: string, limits: Limits, gone: string, kept: string)
    requires gone in s && gone !in Fitted(s, protectedKey, limits)
    requires kept in Fitted(s, protectedKey, limits) && Removable(s, protectedKey, kept)
    ensures Removable(s, protectedKey, gone) && NoYounger(s[gone], s[kept])
  {
    FittingRemovesOldestPrefix(s, protectedKey, limits);
    var items := RemovableItems(s, protectedKey);
    var n :| RemovesPrefix(s, Fitted(s, protectedKey, limits), items, n, limits);
    var i := GoneIsListed(s, items, n, gone);
    RemovableItemsMeaning(s, protectedKey);
    var x := Item(kept, s[kept].createdAt);
    PrefixIsOlder(items, n, i, x);
  }

  lemma GoneIsListed(s: State, items: seq<Item>, n: nat, gone: string) returns (i: Item)
    requires n <= |items| && gone in s && gone !in Without(s, items[..n])
    ensures i in items[..n] && i in items && i.key == gone
  {
    i :| i in items[..n] && i.key == gone;
    assert i in items;
  }

  lemma PrefixIsOlder(items: seq<Item>, n: nat, i: Item, x: Item)
    requires Sorted(ItemAtMost, items) && n <= |items| && i in items[..n] && x in items && x !in items[..n]
    ensures ItemAtMost(i, x)
  {
    var a :| 0 <= a < n && items[a] == i;
    var b :| 0 <= b < |items| && items[b] == x;
    assert forall c :: 0 <= c < n ==> items[c] in items[..n];
  }
}
