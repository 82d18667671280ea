/** Runs of claims and appends on the ledger file, by writers with arbitrary clocks and writes that may
    fail. */
module LedgerRuns {
  import opened Wrappers
  import opened Order
  import opened Ledger

  datatype Event = ClaimEvent(record: Record, write: WriteOutcome) | AppendEvent(record: Record, write: WriteOutcome)

  function Entry(e: Event): Record {
    if e.ClaimEvent? then PendingRecord(e.record) else e.record
  }

  predicate Writes(l: Ledger, e: Event) {
    e.ClaimEvent? ==> Claimable(l, Entry(e))
  }

  function After(l: Ledger, e: Event, size: Ledger -> nat): Ledger {
    if Writes(l, e) then AfterWrite(l, Updated(l, Entry(e)), size, e.write) else l
  }

  /** The event is a claim of this hash, and it is granted. */
  predicate Grants(l: Ledger, e: Event, size: Ledger -> nat, hash: string) {
    e.ClaimEvent? && e.record.hash == hash && Claimable(l, Entry(e)) && WriteSucceeds(Updated(l, Entry(e)), size, e.write)
  }

  // ------------------------------------------------------------------ cutting to size

  lemma {:induction false} FittedMeaning(l: Ledger, size: Ledger -> nat) returns (k: nat)
    ensures k <= |l.records|
    ensures Fitted(l, size).Some? ==>
              && Fitted(l, size).value == l.(records := l.records[k..]) && size(Fitted(l, size).value) <= MAX_BYTES
              && forall j :: 0 <= j < k ==> size(l.(records := l.records[j..])) > MAX_BYTES
    ensures Fitted(l, size).None? ==> forall j :: 0 <= j <= |l.records| - 1 || j == 0 ==> size(l.(records := l.records[j..])) > MAX_BYTES
    decreases |l.records|
  {
    k := 0;
    assert l.(records := l.records[0..]) == l;
    if size(l) > MAX_BYTES && |l.records| > 1 {
      var shorter := l.(records := l.records[1..]);
      k := FittedMeaning(shorter, size);
      forall j | 1 <= j <= |l.records| ensures l.(records := l.records[j..]) == shorter.(records := shorter.records[j - 1..]) {
        assert shorter.records[j - 1..] == l.records[j..];
      }
      k := k + 1;
    }
  }

  /** The byte loop keeps the longest run of newest records that fits and never touches the attempts; it
      fails only if not even the newest record alone fits. */
  lemma ByteLoopKeepsNewestRecords(l: Ledger, size: Ledger -> nat)
    ensures Fitted(l, size).Some? <==>
              exists k :: 0 <= k <= |l.records| && (k < |l.records| || k == 0) && size(l.(records := l.records[k..])) <= MAX_BYTES
    ensures Fitted(l, size).Some? ==>
              && Fitted(l, size).value.attempts == l.attempts && Fitted(l, size).value.updatedAt == l.updatedAt
              && |Fitted(l, size).value.records| <= |l.records|
              && Fitted(l, size).value.records == l.records[|l.records| - |Fitted(l, size).value.records|..]
              && forall k :: 0 <= k < |l.records| - |Fitted(l, size).value.records| ==> size(l.(records := l.records[k..])) > MAX_BYTES
  {
    var k := FittedMeaning(l, size);
    if Fitted(l, size).Some? { FittedKeepsARecord(l, size); }
  }

  lemma {:induction false} FittedKeepsARecord(l: Ledger, size: Ledger -> nat)
    requires Fitted(l, size).Some?
    ensures l.records != [] ==> Fitted(l, size).value.records != []
    decreases |l.records|
  {
    if size(l) > MAX_BYTES && |l.records| > 1 { FittedKeepsARecord(l.(records := l.records[1..]), size); }
  }

  // ------------------------------------------------------------------ what every ledger on disk satisfies

  function HashOf(a: Attempt): string { a.hash }
  function IdOf(r: Record): string { r.id }

  /** One attempt per hash, one record per id. */
  ghost predicate Deduplicated(l: Ledger) {
    UniqueKeys(HashOf, l.attempts) && UniqueKeys(IdOf, l.records)
  }

  predicate Bounded(l: Ledger) {
    |l.attempts| <= MAX_ATTEMPTS && |l.records| <= MAX_RECORDS
  }

  lemma {:induction false} PruningKeepsHashes(attempts: seq<Attempt>, reference: int)
    requires UniqueKeys(HashOf, attempts)
    ensures UniqueKeys(HashOf, ActiveAttempts(attempts, reference))
    decreases |attempts|
  {
    if attempts != [] {
      var rest, last := attempts[..|attempts| - 1], attempts[|attempts| - 1];
      PruningKeepsHashes(rest, reference);
      ActiveAttemptsMembers(rest, reference);
      forall a | a in ActiveAttempts(rest, reference) ensures a.hash != last.hash {
        var i :| 0 <= i < |rest| && rest[i] == a;
        assert HashOf(attempts[i]) != HashOf(attempts[|rest|]);
      }
    }
  }

  lemma {:induction false} PruningKeepsIds(records: seq<Record>, reference: int)
    requires UniqueKeys(IdOf, records)
    ensures UniqueKeys(IdOf, ActiveRecords(records, reference))
    decreases |records|
  {
    if records != [] {
      var rest, last := records[..|records| - 1], records[|records| - 1];
      PruningKeepsIds(rest, reference);
      ActiveRecordsMembers(rest, reference);
      forall r | r in ActiveRecords(rest, reference) ensures r.id != last.id {
        var i :| 0 <= i < |rest| && rest[i] == r;
        assert IdOf(records[i]) != IdOf(records[|rest|]);
      }
    }
  }

  /** The new attempt is there, and every other one is still there. */
  lemma {:induction false} WithAttemptMembers(attempts: seq<Attempt>, a: Attempt)
    requires UniqueKeys(HashOf, attempts)
    ensures forall b :: b in WithAttempt(attempts, a) <==> b == a || (b in attempts && b.hash != a.hash)
    ensures UniqueKeys(HashOf, WithAttempt(attempts, a))
  {
    if attempts != [] {
      var first, rest := attempts[0], attempts[1..];
      assert attempts == [first] + rest;
      forall b | b in rest ensures b.hash != first.hash {
        var i :| 0 <= i < |rest| && rest[i] == b;
        assert HashOf(attempts[0]) != HashOf(attempts[i + 1]);
      }
      forall i, j | 0 <= i < j < |rest| ensures HashOf(rest[i]) != HashOf(rest[j]) { assert HashOf(attempts[i + 1]) != HashOf(attempts[j + 1]); }
      if first.hash != a.hash { WithAttemptMembers(rest, a); }
    }
  }

  lemma {:induction false} WithRecordMembers(records: seq<Record>, r: Record)
    requires UniqueKeys(IdOf, records)
    ensures forall b :: b in WithRecord(records, r) <==> b == r || (b in records && b.id != r.id)
    ensures UniqueKeys(IdOf, WithRecord(records, r))
  {
    if records != [] {
      var first, rest := records[0], records[1..];
      assert records == [first] + rest;
      forall b | b in rest ensures b.id != first.id {
        var i :| 0 <= i < |rest| && rest[i] == b;
        assert IdOf(records[0]) != IdOf(records[i + 1]);
      }
      forall i, j | 0 <= i < j < |rest| ensures IdOf(rest[i]) != IdOf(rest[j]) { assert IdOf(records[i + 1]) != IdOf(records[j + 1]); }
      if first.id != r.id { WithRecordMembers(rest, r); }
    }
  }

  lemma UpdatedIsDeduplicated(l: Ledger, r: Record)
    requires Deduplicated(l)
    ensures Deduplicated(Updated(l, r))
  {
    var reference := Reference(l, r.createdAt);
    PruningKeepsHashes(l.attempts, reference);
    PruningKeepsIds(l.records, reference);
    WithAttemptMembers(ActiveAttempts(l.attempts, reference), AttemptOf(r));
    WithRecordMembers(ActiveRecords(l.records, reference), r);
  }

  lemma AttemptOrder()
    ensures Preorder(AttemptAtMost)
  {
    AtMostIsPreorder();
  }

  lemma RecordOrder()
    ensures Preorder(RecordAtMost)
  {
    AtMostIsPreorder();
  }

  lemma CutIsDeduplicated(l: Ledger)
    requires Deduplicated(l)
    ensures Deduplicated(Counted(l)) && Bounded(Counted(l))
  {
    AttemptOrder();
    RecordOrder();
    SortSorts(AttemptAtMost, l.attempts);
    SortSorts(RecordAtMost, l.records);
    UniqueKeysPermute(HashOf, l.attempts, Sort(AttemptAtMost, l.attempts));
    UniqueKeysPermute(IdOf, l.records, Sort(RecordAtMost, l.records));
  }

  predicate NoLater(a: Option<int>, b: Option<int>) {
    a.None? || (b.Some? && a.value <= b.value)
  }

  /** Every event keeps the ledger deduplicated and bounded, and never turns its update time back,
      whatever the writer's clock says. */
  lemma EventKeepsLedger(l: Ledger, e: Event, size: Ledger -> nat)
    requires Deduplicated(l) && Bounded(l)
    ensures Deduplicated(After(l, e, size)) && Bounded(After(l, e, size)) && NoLater(l.updatedAt, After(l, e, size).updatedAt)
  {
    var updated := Updated(l, Entry(e));
    UpdatedIsDeduplicated(l, Entry(e));
    CutIsDeduplicated(updated);
    ByteLoopKeepsNewestRecords(Counted(updated), size);
  }

  // ------------------------------------------------------------------ why a hash can be claimed again

  /** At this event the hash's attempt is more than an hour old if pending, and else more than 720. */
  ghost predicate Expires(l: Ledger, e: Event, hash: string) {
    exists a :: a in l.attempts && a.hash == hash && Instant(l, e.record.createdAt) > BlockedUntil(a)
  }

  /** This event cuts the hash's attempt because 4096 attempts created no earlier are kept instead. */
  ghost predicate CutsOff(l: Ledger, e: Event, hash: string) {
    var kept := Counted(Updated(l, Entry(e))).attempts;
    && |kept| == 4096
    && exists a :: a in Updated(l, Entry(e)).attempts && a.hash == hash && forall k :: k in kept ==> a.createdAt <= k.createdAt
  }

  lemma NewestMembers(attempts: seq<Attempt>, a: Attempt)
    requires a in attempts
    ensures var kept := Newest(Sort(AttemptAtMost, attempts), MAX_ATTEMPTS);
            a in kept || (|kept| == MAX_ATTEMPTS && forall k :: k in kept ==> AttemptAtMost(a, k))
  {
    var sorted := Sort(AttemptAtMost, attempts);
    var kept := Newest(sorted, MAX_ATTEMPTS);
    AttemptOrder();
    SortSorts(AttemptAtMost, attempts);
    MembersOfPermutation(attempts, sorted);
    var i :| 0 <= i < |sorted| && sorted[i] == a;
    var cut := |sorted| - |kept|;
    if i < cut {
      forall k | k in kept ensures AttemptAtMost(a, k) {
        var j :| 0 <= j < |kept| && kept[j] == k;
        assert sorted[cut + j] == k;
      }
    } else {
      assert kept[i - cut] == a;
    }
  }

  /** A write keeps an updated attempt or cuts it off. */
  lemma WriteKeepsOrCuts(l: Ledger, e: Event, size: Ledger -> nat, hash: string)
    requires HasAttempt(Updated(l, Entry(e)), hash) && Fitted(Counted(Updated(l, Entry(e))), size).Some?
    ensures HasAttempt(Fitted(Counted(Updated(l, Entry(e))), size).value, hash) || CutsOff(l, e, hash)
  {
    var updated := Updated(l, Entry(e));
    var a :| a in updated.attempts && a.hash == hash;
    NewestMembers(updated.attempts, a);
    ByteLoopKeepsNewestRecords(Counted(updated), size);
  }

  lemma UpdateKeepsOrExpires(l: Ledger, e: Event, hash: string)
    requires Deduplicated(l) && HasAttempt(l, hash)
    ensures HasAttempt(Updated(l, Entry(e)), hash) || Expires(l, e, hash)
  {
    var r := Entry(e);
    var reference := Reference(l, r.createdAt);
    var a :| a in l.attempts && a.hash == hash;
    RetentionIsExact(a, l, r.createdAt);
    PruningKeepsHashes(l.attempts, reference);
    ActiveAttemptsMembers(l.attempts, reference);
    WithAttemptMembers(ActiveAttempts(l.attempts, reference), AttemptOf(r));
    if Active(a, reference) {
      if r.hash == hash { assert AttemptOf(r) in Updated(l, r).attempts; } else { assert a in Updated(l, r).attempts; }
    }
  }

  /** The event replaces the file. */
  predicate Rewrites(l: Ledger, e: Event, size: Ledger -> nat) {
    Writes(l, e) && Fitted(Counted(Updated(l, Entry(e))), size).Some? && e.write.Replaces()
  }

  /** One event loses an attempt only by replacing the file, and then by expiry or by the
      newest-4096 cut. */
  lemma EventKeepsAttempt(l: Ledger, e: Event, size: Ledger -> nat, hash: string)
    requires Deduplicated(l) && HasAttempt(l, hash)
    ensures HasAttempt(After(l, e, size), hash) || (Rewrites(l, e, size) && (Expires(l, e, hash) || CutsOff(l, e, hash)))
  {
    UpdateKeepsOrExpires(l, e, hash);
    if HasAttempt(Updated(l, Entry(e)), hash) && Fitted(Counted(Updated(l, Entry(e))), size).Some? {
      WriteKeepsOrCuts(l, e, size, hash);
    }
  }

  lemma GrantRecordsAttempt(l: Ledger, e: Event, size: Ledger -> nat, hash: string)
    requires Deduplicated(l) && Grants(l, e, size, hash)
    ensures HasAttempt(After(l, e, size), hash) || CutsOff(l, e, hash)
  {
    var r := Entry(e);
    var reference := Reference(l, r.createdAt);
    PruningKeepsHashes(l.attempts, reference);
    WithAttemptMembers(ActiveAttempts(l.attempts, reference), AttemptOf(r));
    assert AttemptOf(r) in Updated(l, r).attempts;
    WriteKeepsOrCuts(l, e, size, hash);
  }

  lemma GrantNeedsNoActiveAttempt(l: Ledger, e: Event, size: Ledger -> nat, hash: string)
    requires Grants(l, e, size, hash) && HasAttempt(l, hash)
    ensures Expires(l, e, hash)
  {
    var reference := Reference(l, e.record.createdAt);
    var a :| a in l.attempts && a.hash == hash;
    RetentionIsExact(a, l, e.record.createdAt);
    ActiveAttemptsMembers(l.attempts, reference);
    assert Active(a, reference) ==> a in Pruned(l, reference).attempts;
  }

  ghost predicate Run(disks: seq<Ledger>, events: seq<Event>, size: Ledger -> nat) {
    |disks| == |events| + 1 && forall i :: 0 <= i < |events| ==> IsStep(disks, events, size, i)
  }

  ghost predicate IsStep(disks: seq<Ledger>, events: seq<Event>, size: Ledger -> nat, i: nat)
    requires |disks| == |events| + 1 && i < |events|
  {
    disks[i + 1] == After(disks[i], events[i], size)
  }

  /** Along a run the update time never falls, hashes and ids stay unique, and the bounds hold. */
  lemma {:induction false} RunKeepsLedger(disks: seq<Ledger>, events: seq<Event>, size: Ledger -> nat, i: nat, j: nat)
    requires Run(disks, events, size) && Deduplicated(disks[0]) && Bounded(disks[0]) && i <= j < |disks|
    ensures Deduplicated(disks[j]) && Bounded(disks[j]) && NoLater(disks[i].updatedAt, disks[j].updatedAt)
    decreases j
  {
    if j > 0 {
      RunKeepsLedger(disks, events, size, if i < j then i else 0, j - 1);
      assert IsStep(disks, events, size, j - 1);
      EventKeepsLedger(disks[j - 1], events[j - 1], size);
    }
  }

  /** Between two moments of a run an event replaced the file and left the attempt out. */
  ghost predicate Explained(disks: seq<Ledger>, events: seq<Event>, size: Ledger -> nat, hash: string, i: nat, j: nat)
    requires |disks| == |events| + 1 && j < |events|
  {
    || (exists k :: i <= k < j && Rewrites(disks[k], events[k], size) && CutsOff(disks[k], events[k], hash))
    || (exists k :: i < k <= j && Rewrites(disks[k], events[k], size) && Expires(disks[k], events[k], hash))
  }

  /** Event k left the attempt out, by the cut or by expiry. */
  lemma ExplainedBy(disks: seq<Ledger>, events: seq<Event>, size: Ledger -> nat, hash: string, i: nat, j: nat, k: nat)
    requires |disks| == |events| + 1 && j < |events| && i <= k < j && Rewrites(disks[k], events[k], size)
    requires CutsOff(disks[k], events[k], hash) || (i < k && Expires(disks[k], events[k], hash))
    ensures Explained(disks, events, size, hash, i, j)
  {
  }

  lemma StaysExplained(disks: seq<Ledger>, events: seq<Event>, size: Ledger -> nat, hash: string, i: nat, j: nat)
    requires |disks| == |events| + 1 && i < j < |events| && Explained(disks, events, size, hash, i, j - 1)
    ensures Explained(disks, events, size, hash, i, j)
  {
  }

  lemma {:induction false} AttemptStaysUnlessExplained(disks: seq<Ledger>, events: seq<Event>, size: Ledger -> nat, hash: string, i: nat, j: nat)
    requires Run(disks, events, size) && Deduplicated(disks[0]) && Bounded(disks[0]) && i < j < |events|
    requires Grants(disks[i], events[i], size, hash)
    ensures HasAttempt(disks[j], hash) || Explained(disks, events, size, hash, i, j)
    decreases j
  {
    if j == i + 1 {
      StepAfterGrant(disks, events, size, hash, i);
      if CutsOff(disks[i], events[i], hash) { ExplainedBy(disks, events, size, hash, i, j, i); }
    } else {
      AttemptStaysUnlessExplained(disks, events, size, hash, i, j - 1);
      if HasAttempt(disks[j - 1], hash) {
        StepKeepsAttempt(disks, events, size, hash, j - 1);
        if !HasAttempt(disks[j], hash) { ExplainedBy(disks, events, size, hash, i, j, j - 1); }
      } else {
        StaysExplained(disks, events, size, hash, i, j);
      }
    }
  }

  lemma StepAfterGrant(disks: seq<Ledger>, events: seq<Event>, size: Ledger -> nat, hash: string, i: nat)
    requires Run(disks, events, size) && Deduplicated(disks[0]) && Bounded(disks[0]) && i < |events|
    requires Grants(disks[i], events[i], size, hash)
    ensures Rewrites(disks[i], events[i], size) && (HasAttempt(disks[i + 1], hash) || CutsOff(disks[i], events[i], hash))
  {
    RunKeepsLedger(disks, events, size, 0, i);
    assert IsStep(disks, events, size, i);
    GrantRecordsAttempt(disks[i], events[i], size, hash);
  }

  lemma StepKeepsAttempt(disks: seq<Ledger>, events: seq<Event>, size: Ledger -> nat, hash: string, i: nat)
    requires Run(disks, events, size) && Deduplicated(disks[0]) && Bounded(disks[0]) && i < |events| && HasAttempt(disks[i], hash)
    ensures HasAttempt(disks[i + 1], hash) ||
            (Rewrites(disks[i], events[i], size) && (Expires(disks[i], events[i], hash) || CutsOff(disks[i], events[i], hash)))
  {
    RunKeepsLedger(disks, events, size, 0, i);
    assert IsStep(disks, events, size, i);
    EventKeepsAttempt(disks[i], events[i], size, hash);
  }

  /** A hash is granted twice only if, in between, the file was replaced while its attempt was past
      its retention at the ledger's reference time, or was cut by the newest-4096 bound. */
  lemma SecondClaimIsExplained(disks: seq<Ledger>, events: seq<Event>, size: Ledger -> nat, hash: string, i: nat, j: nat)
    requires Run(disks, events, size) && Deduplicated(disks[0]) && Bounded(disks[0]) && i < j < |events|
    requires Grants(disks[i], events[i], size, hash) && Grants(disks[j], events[j], size, hash)
    ensures Explained(disks, events, size, hash, i, j)
  {
    AttemptStaysUnlessExplained(disks, events, size, hash, i, j);
    if HasAttempt(disks[j], hash) { GrantNeedsNoActiveAttempt(disks[j], events[j], size, hash); }
  }
}
