/** What a claim or an append leaves in the ledger file, record by record: durations, limits and orders
    written out. */
module LedgerRecords {
  import opened Wrappers
  import opened Order
  import opened Ledger
  import opened LedgerRuns

  /** A claim enters its record as pending and without an outcome; an append enters it as it is. */
  lemma EntryIsExact(e: Event)
    ensures Entry(e) == if e.ClaimEvent? then Record(e.record.id, e.record.hash, e.record.createdAt, Pending, "", e.record.payload)
                        else e.record
  {
  }

  predicate Counts(hash: string, createdAt: int, status: Status, at: int) {
    at <= BlockedUntil(Attempt(hash, createdAt, status))
  }

  /** Attempts and records that still count stay, but for those of the same hash or id, which the new
      ones replace; the ledger's time moves up to the writer's, never back. */
  lemma UpdatedIsExact(l: Ledger, r: Record)
    requires Deduplicated(l)
    ensures var at := Instant(l, r.createdAt);
            var updated := Updated(l, r);
            && updated.updatedAt == Some(at)
            && (forall a :: a in updated.attempts <==>
                  || a == Attempt(r.hash, r.createdAt, r.status)
                  || (a in l.attempts && a.hash != r.hash && Counts(a.hash, a.createdAt, a.status, at)))
            && (forall q :: q in updated.records <==>
                  q == r || (q in l.records && q.id != r.id && Counts(q.hash, q.createdAt, q.status, at)))
  {
    var reference := Reference(l, r.createdAt);
    PruningKeepsHashes(l.attempts, reference);
    PruningKeepsIds(l.records, reference);
    ActiveAttemptsMembers(l.attempts, reference);
    ActiveRecordsMembers(l.records, reference);
    WithAttemptMembers(ActiveAttempts(l.attempts, reference), AttemptOf(r));
    WithRecordMembers(ActiveRecords(l.records, reference), r);
    forall a | a in l.attempts ensures Active(a, reference) <==> Counts(a.hash, a.createdAt, a.status, Instant(l, r.createdAt)) {
      RetentionIsExact(a, l, r.createdAt);
    }
    forall q | q in l.records ensures Active(AttemptOf(q), reference) <==> Counts(q.hash, q.createdAt, q.status, Instant(l, r.createdAt)) {
      RetentionIsExact(AttemptOf(q), l, r.createdAt);
    }
  }

  predicate OlderRecord(a: Record, b: Record) {
    a.createdAt < b.createdAt || (a.createdAt == b.createdAt && (a.id == b.id || Less(a.id, b.id)))
  }

  predicate OlderAttempt(a: Attempt, b: Attempt) {
    a.createdAt < b.createdAt || (a.createdAt == b.createdAt && (a.hash == b.hash || Less(a.hash, b.hash)))
  }

  /** The list is the newest of the others, oldest first. */
  ghost predicate IsNewest<T>(older: (T, T) -> bool, all: seq<T>, kept: seq<T>) {
    && (forall x :: x in kept ==> x in all) && (forall i, j :: 0 <= i < j < |kept| ==> older(kept[i], kept[j]))
    && forall x, k :: x in all && x !in kept && k in kept ==> older(x, k)
  }

  lemma CutPrecedesKept<T>(le: (T, T) -> bool, sorted: seq<T>, cut: nat, x: T, k: T)
    requires Sorted(le, sorted) && cut <= |sorted| && x in sorted && x !in sorted[cut..] && k in sorted[cut..]
    ensures le(x, k)
  {
    var kept := sorted[cut..];
    var i :| 0 <= i < |sorted| && sorted[i] == x;
    var j :| 0 <= j < |kept| && kept[j] == k;
    forall n | cut <= n < |sorted| ensures sorted[n] in kept { assert kept[n - cut] == sorted[n]; }
    assert sorted[cut + j] == k;
  }

  lemma TailIsNewest<T(!new)>(le: (T, T) -> bool, older: (T, T) -> bool, all: seq<T>, cut: nat)
    requires Preorder(le) && cut <= |all| && forall x, y :: le(x, y) ==> older(x, y)
    ensures IsNewest(older, all, Sort(le, all)[cut..])
  {
    var sorted := Sort(le, all);
    var kept := sorted[cut..];
    SortSorts(le, all);
    MembersOfPermutation(all, sorted);
    forall x, k | x in all && x !in kept && k in kept ensures older(x, k) { CutPrecedesKept(le, sorted, cut, x, k); }
    forall x | x in kept ensures x in all { assert x in sorted; }
    forall i, j | 0 <= i < j < |kept| ensures older(kept[i], kept[j]) { assert le(sorted[cut + i], sorted[cut + j]); }
  }

  lemma TailOfTail<T>(s: seq<T>, m: nat, n: nat)
    requires m <= |s| && n <= |s| - m
    ensures s[m..][n..] == s[m + n..]
  {
  }

  /** On disk are the newest 4096 attempts, */
  lemma WriteKeepsNewestAttempts(l: Ledger, size: Ledger -> nat)
    requires Fitted(Counted(l), size).Some?
    ensures var kept := Fitted(Counted(l), size).value;
            && kept.updatedAt == l.updatedAt && IsNewest(OlderAttempt, l.attempts, kept.attempts)
            && |kept.attempts| == if |l.attempts| > 4096 then 4096 else |l.attempts|
  {
    AttemptOrder();
    ByteLoopKeepsNewestRecords(Counted(l), size);
    var sorted := Sort(AttemptAtMost, l.attempts);
    var kept := Fitted(Counted(l), size).value.attempts;
    assert kept == sorted[|sorted| - |kept|..];
    TailIsNewest(AttemptAtMost, OlderAttempt, l.attempts, |sorted| - |kept|);
  }

  /** and the newest records, at most 100. */
  lemma WriteKeepsNewestRecords(l: Ledger, size: Ledger -> nat)
    requires Fitted(Counted(l), size).Some?
    ensures var kept := Fitted(Counted(l), size).value;
            && IsNewest(OlderRecord, l.records, kept.records) && |kept.records| <= 100 && |kept.records| <= |l.records|
            && kept.records == Sort(RecordAtMost, l.records)[|l.records| - |kept.records|..]
  {
    KeptIsTail(l, size);
    RecordOrder();
    TailIsNewest(RecordAtMost, OlderRecord, l.records, |l.records| - |Fitted(Counted(l), size).value.records|);
  }

  lemma KeptIsTail(l: Ledger, size: Ledger -> nat)
    requires Fitted(Counted(l), size).Some?
    ensures var kept := Fitted(Counted(l), size).value.records;
            |kept| <= 100 && |kept| <= |l.records| && kept == Sort(RecordAtMost, l.records)[|l.records| - |kept|..]
  {
    ByteLoopKeepsNewestRecords(Counted(l), size);
    var sorted := Sort(RecordAtMost, l.records);
    var counted, kept := Counted(l).records, Fitted(Counted(l), size).value.records;
    TailOfTail(sorted, |sorted| - |counted|, |counted| - |kept|);
  }

  /** The file then has at most 4 MiB, and one more record would have been too many or too much. */
  lemma WriteDropsNoMore(l: Ledger, size: Ledger -> nat)
    requires Fitted(Counted(l), size).Some?
    ensures var kept := Fitted(Counted(l), size).value;
            && size(kept) <= 4_194_304 && |kept.records| <= |l.records|
            && (|kept.records| < 100 && |kept.records| < |l.records| ==>
                  size(kept.(records := Sort(RecordAtMost, l.records)[|l.records| - |kept.records| - 1..])) > 4_194_304)
  {
    var counted, kept, sorted := Counted(l), Fitted(Counted(l), size).value, Sort(RecordAtMost, l.records);
    ByteLoopKeepsNewestRecords(counted, size);
    var k := FittedMeaning(counted, size);
    if |kept.records| < 100 && |kept.records| < |l.records| {
      var dropped := |counted.records| - |kept.records|;
      assert dropped > 0;
      assert counted.records[dropped - 1..] == sorted[|sorted| - |kept.records| - 1..];
      assert counted.(records := counted.records[dropped - 1..]) == kept.(records := sorted[|sorted| - |kept.records| - 1..]);
    }
  }

  /** What is on disk after an event that replaced the file. */
  ghost predicate Holds(l: Ledger, e: Event, after: Ledger) {
    var at, r := Instant(l, e.record.createdAt), Entry(e);
    && after.updatedAt == Some(at) && |after.attempts| <= 4096 && |after.records| <= 100
    && (forall a :: a in after.attempts ==>
          || a == Attempt(r.hash, r.createdAt, r.status)
          || (a in l.attempts && a.hash != r.hash && Counts(a.hash, a.createdAt, a.status, at)))
    && (forall q :: q in after.records ==>
          q == r || (q in l.records && q.id != r.id && Counts(q.hash, q.createdAt, q.status, at)))
    && (r in after.records || forall q :: q in after.records ==> OlderRecord(r, q))
    && (Attempt(r.hash, r.createdAt, r.status) in after.attempts ||
        (|after.attempts| == 4096 && forall a :: a in after.attempts ==> OlderAttempt(Attempt(r.hash, r.createdAt, r.status), a)))
  }

  lemma EventIsExact(l: Ledger, e: Event, size: Ledger -> nat)
    requires Deduplicated(l)
    ensures if Rewrites(l, e, size) then Holds(l, e, After(l, e, size)) else After(l, e, size) == l
  {
    if Rewrites(l, e, size) {
      var updated := Updated(l, Entry(e));
      UpdatedIsExact(l, Entry(e));
      WriteKeepsNewestAttempts(updated, size);
      WriteKeepsNewestRecords(updated, size);
      ByteLoopKeepsNewestRecords(Counted(updated), size);
      var kept := Fitted(Counted(updated), size).value;
      assert Entry(e) in updated.records && AttemptOf(Entry(e)) in updated.attempts;
      if AttemptOf(Entry(e)) !in kept.attempts { NewestMembers(updated.attempts, AttemptOf(Entry(e))); }
    }
  }
}
