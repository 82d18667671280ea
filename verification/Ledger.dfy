/** The private comparison ledger: bounded records, and compact attempts that keep one comparison from
    being run twice. Instants are nanoseconds; size is the length of the encoded file. */
module Ledger {
  import opened Wrappers
  import opened Order

  const MAX_RECORDS: nat := 100
  const MAX_ATTEMPTS: nat := 4096
  const MAX_BYTES: nat := 0x40_0000
  const HOUR: int := 3_600_000_000_000
  const RETENTION: int := 720 * HOUR
  const PENDING_RETENTION: int := HOUR

  datatype Status =
    | Pending | Succeeded | CleanupPending | EvidenceFailed | SetupFailed | RuntimeFailed | NoResult | MalformedResult
    | ExtraFile | Deletion | Rename | ContractViolation | Timeout | Cancellation

  datatype Attempt = Attempt(hash: string, createdAt: int, status: Status)

  /** outcome stands for the error code, comparison hash, shadow analysis and duration, all empty while
      the comparison is pending. */
  datatype Record = Record(id: string, hash: string, createdAt: int, status: Status, outcome: string, payload: string)

  datatype Ledger = Ledger(updatedAt: Option<int>, attempts: seq<Attempt>, records: seq<Record>)

  // ------------------------------------------------------------------ the steps on values

  function Retention(status: Status): int {
    if status == Pending then PENDING_RETENTION else RETENTION
  }

  predicate Active(a: Attempt, reference: int) {
    a.createdAt >= reference - Retention(a.status)
  }

  function AttemptOf(r: Record): Attempt {
    Attempt(r.hash, r.createdAt, r.status)
  }

  /** The later of the writer's clock and the ledger's last update. */
  function Reference(l: Ledger, createdAt: int): int {
    if l.updatedAt.Some? && l.updatedAt.value > createdAt then l.updatedAt.value else createdAt
  }

  function ActiveAttempts(attempts: seq<Attempt>, reference: int): seq<Attempt> {
    if attempts == [] then []
    else
      var rest, last := ActiveAttempts(attempts[..|attempts| - 1], reference), attempts[|attempts| - 1];
      if Active(last, reference) then rest + [last] else rest
  }

  function ActiveRecords(records: seq<Record>, reference: int): seq<Record> {
    if records == [] then []
    else
      var rest, last := ActiveRecords(records[..|records| - 1], reference), records[|records| - 1];
      if Active(AttemptOf(last), reference) then rest + [last] else rest
  }

  function Pruned(l: Ledger, reference: int): Ledger {
    l.(attempts := ActiveAttempts(l.attempts, reference), records := ActiveRecords(l.records, reference))
  }

  /** Replace the first attempt with the same hash, or add one. */
  function WithAttempt(attempts: seq<Attempt>, a: Attempt): seq<Attempt> {
    if attempts == [] then [a]
    else if attempts[0].hash == a.hash then [a] + attempts[1..]
    else [attempts[0]] + WithAttempt(attempts[1..], a)
  }

  function WithRecord(records: seq<Record>, r: Record): seq<Record> {
    if records == [] then [r]
    else if records[0].id == r.id then [r] + records[1..]
    else [records[0]] + WithRecord(records[1..], r)
  }

  /** The ledger with one more attempt and record, not yet cut to size. */
  function Updated(l: Ledger, r: Record): Ledger {
    var reference := Reference(l, r.createdAt);
    var pruned := Pruned(l, reference);
    Ledger(Some(reference), WithAttempt(pruned.attempts, AttemptOf(r)), WithRecord(pruned.records, r))
  }

  predicate AttemptAtMost(a: Attempt, b: Attempt) {
    if a.createdAt != b.createdAt then a.createdAt < b.createdAt else AtMost(a.hash, b.hash)
  }

  predicate RecordAtMost(a: Record, b: Record) {
    if a.createdAt != b.createdAt then a.createdAt < b.createdAt else AtMost(a.id, b.id)
  }

  function Newest<T>(s: seq<T>, limit: nat): seq<T> {
    if |s| > limit then s[|s| - limit..] else s
  }

  /** Oldest first, and no more than the newest 4096 attempts and 100 records. */
  function Counted(l: Ledger): Ledger {
    l.(attempts := Newest(Sort(AttemptAtMost, l.attempts), MAX_ATTEMPTS), records := Newest(Sort(RecordAtMost, l.records), MAX_RECORDS))
  }

  /** Drop the oldest records until the file fits; a last record that does not fit is an error. */
  function Fitted(l: Ledger, size: Ledger -> nat): Option<Ledger>
    decreases |l.records|
  {
    if size(l) <= MAX_BYTES then Some(l)
    else if |l.records| <= 1 then None
    else Fitted(l.(records := l.records[1..]), size)
  }

  /** What a write of ledger l leaves on disk. */
  function AfterWrite(disk: Ledger, l: Ledger, size: Ledger -> nat, write: WriteOutcome): Ledger {
    var fitted := Fitted(Counted(l), size);
    if fitted.Some? && write.Replaces() then fitted.value else disk
  }

  predicate WriteSucceeds(l: Ledger, size: Ledger -> nat, write: WriteOutcome) {
    Fitted(Counted(l), size).Some? && write.Written?
  }

  predicate HasAttempt(l: Ledger, hash: string) {
    exists a :: a in l.attempts && a.hash == hash
  }

  predicate HasRecordOf(l: Ledger, hash: string) {
    exists r :: r in l.records && r.hash == hash
  }

  function PendingRecord(r: Record): Record {
    r.(status := Pending, outcome := "")
  }

  /** A claim is refused while an active attempt or record carries its hash. */
  predicate Claimable(l: Ledger, r: Record) {
    var pruned := Pruned(l, Reference(l, r.createdAt));
    !HasAttempt(pruned, r.hash) && !HasRecordOf(pruned, r.hash)
  }

  // ------------------------------------------------------------------ how long a hash is taken

  /** The clock a claim or append goes by: the writer's, or the last update if that is later. */
  function Instant(l: Ledger, clock: int): int {
    match l.updatedAt
    case None => clock
    case Some(last) => if clock < last then last else clock
  }

  /** The last instant at which an attempt still counts: an hour after its creation while it is
      pending, 720 hours after it once it has ended, in whatever way. */
  function BlockedUntil(a: Attempt): int {
    match a.status
    case Pending => a.createdAt + 3_600_000_000_000
    case _ => a.createdAt + 2_592_000_000_000_000
  }

  lemma RetentionIsExact(a: Attempt, l: Ledger, clock: int)
    ensures Active(a, Reference(l, clock)) <==> Instant(l, clock) <= BlockedUntil(a)
  {
  }

  /** Some attempt or record of the hash still counts. */
  ghost predicate Blocks(l: Ledger, hash: string, at: int) {
    || (exists a :: a in l.attempts && a.hash == hash && at <= BlockedUntil(a))
    || (exists r :: r in l.records && r.hash == hash && at <= BlockedUntil(Attempt(r.hash, r.createdAt, r.status)))
  }

  /** A hash can be claimed exactly when nothing of it counts any more. */
  lemma ClaimableExactlyWhenUnblocked(l: Ledger, r: Record)
    ensures Claimable(l, r) <==> !Blocks(l, r.hash, Instant(l, r.createdAt))
  {
    var reference := Reference(l, r.createdAt);
    ActiveAttemptsMembers(l.attempts, reference);
    ActiveRecordsMembers(l.records, reference);
    forall a | a in l.attempts ensures Active(a, reference) <==> Instant(l, r.createdAt) <= BlockedUntil(a) {
      RetentionIsExact(a, l, r.createdAt);
    }
    forall q | q in l.records ensures Active(AttemptOf(q), reference) <==> Instant(l, r.createdAt) <= BlockedUntil(Attempt(q.hash, q.createdAt, q.status)) {
      RetentionIsExact(AttemptOf(q), l, r.createdAt);
    }
    var pruned := Pruned(l, reference);
    assert HasAttempt(pruned, r.hash) <==> exists a :: a in l.attempts && a.hash == r.hash && Active(a, reference);
    assert HasRecordOf(pruned, r.hash) <==> exists q :: q in l.records && q.hash == r.hash && Active(AttemptOf(q), reference);
  }

  // ------------------------------------------------------------------ the same in place

  class ShadowLedger {
    var updatedAt: Option<int>
    var attempts: seq<Attempt>
    var records: seq<Record>

    function Value(): Ledger
      reads this
    {
      Ledger(updatedAt, attempts, records)
    }

    constructor (l: Ledger)
      ensures Value() == l
    {
      updatedAt, attempts, records := l.updatedAt, l.attempts, l.records;
    }

    method Prune(reference: int)
      modifies this
      ensures Value() == Pruned(old(Value()), reference)
    {
      var keptRecords: seq<Record> := [];
      for i := 0 to |records|
        invariant keptRecords == ActiveRecords(records[..i], reference) && Value() == old(Value())
      {
        assert records[..i + 1][..i] == records[..i];
        if Active(AttemptOf(records[i]), reference) { keptRecords := keptRecords + [records[i]]; }
      }
      assert records[..|records|] == records;
      records := keptRecords;
      var keptAttempts: seq<Attempt> := [];
      for i := 0 to |attempts|
        invariant keptAttempts == ActiveAttempts(attempts[..i], reference)
        invariant attempts == old(attempts) && updatedAt == old(updatedAt) && records == keptRecords
      {
        assert attempts[..i + 1][..i] == attempts[..i];
        if Active(attempts[i], reference) { keptAttempts := keptAttempts + [attempts[i]]; }
      }
      assert attempts[..|attempts|] == attempts;
      attempts := keptAttempts;
    }

    method UpsertAttempt(a: Attempt)
      modifies this`attempts
      ensures attempts == WithAttempt(old(attempts), a)
    {
      for i := 0 to |attempts|
        invariant attempts == old(attempts)
        invariant WithAttempt(attempts, a) == attempts[..i] + WithAttempt(attempts[i..], a)
      {
        if attempts[i].hash == a.hash {
          attempts := attempts[i := a];
          assert attempts == old(attempts[..i]) + ([a] + old(attempts[i..][1..]));
          return;
        }
        assert attempts[i..][1..] == attempts[i + 1..];
        assert attempts[..i] + ([attempts[i]] + WithAttempt(attempts[i + 1..], a)) == attempts[..i + 1] + WithAttempt(attempts[i + 1..], a);
      }
      attempts := attempts + [a];
    }

    method UpsertRecord(r: Record)
      modifies this`records
      ensures records == WithRecord(old(records), r)
    {
      for i := 0 to |records|
        invariant records == old(records)
        invariant WithRecord(records, r) == records[..i] + WithRecord(records[i..], r)
      {
        if records[i].id == r.id {
          records := records[i := r];
          assert records == old(records[..i]) + ([r] + old(records[i..][1..]));
          return;
        }
        assert records[i..][1..] == records[i + 1..];
        assert records[..i] + ([records[i]] + WithRecord(records[i + 1..], r)) == records[..i + 1] + WithRecord(records[i + 1..], r);
      }
      records := records + [r];
    }

    /** The part of writeLedger before the file is replaced. */
    method Trim(size: Ledger -> nat) returns (ok: bool)
      modifies this
      ensures ok == Fitted(Counted(old(Value())), size).Some?
      ensures ok ==> Value() == Fitted(Counted(old(Value())), size).value
    {
      attempts := Newest(Sort(AttemptAtMost, attempts), MAX_ATTEMPTS);
      records := Newest(Sort(RecordAtMost, records), MAX_RECORDS);
      ghost var counted := Value();
      while size(Value()) > MAX_BYTES
        invariant Fitted(Value(), size) == Fitted(counted, size)
        decreases |records|
      {
        if |records| <= 1 { return false; }
        records := records[1..];
      }
      ok := true;
    }

    /** Whether some attempt or record with this hash is active. */
    method IsTaken(hash: string, reference: int) returns (taken: bool)
      ensures taken <==> (exists a :: a in attempts && a.hash == hash && Active(a, reference)) ||
                         (exists r :: r in records && r.hash == hash && Active(AttemptOf(r), reference))
    {
      for i := 0 to |attempts|
        invariant forall k :: 0 <= k < i ==> !(attempts[k].hash == hash && Active(attempts[k], reference))
      {
        if attempts[i].hash == hash && Active(attempts[i], reference) { return true; }
      }
      for i := 0 to |records|
        invariant forall k :: 0 <= k < i ==> !(records[k].hash == hash && Active(AttemptOf(records[k]), reference))
      {
        if records[i].hash == hash && Active(AttemptOf(records[i]), reference) { return true; }
      }
      taken := false;
    }
  }

  lemma {:induction false} ActiveAttemptsMembers(attempts: seq<Attempt>, reference: int)
    ensures forall a :: a in ActiveAttempts(attempts, reference) <==> a in attempts && Active(a, reference)
    decreases |attempts|
  {
    if attempts != [] {
      var rest, last := attempts[..|attempts| - 1], attempts[|attempts| - 1];
      ActiveAttemptsMembers(rest, reference);
      assert attempts == rest + [last];
    }
  }

  lemma {:induction false} ActiveRecordsMembers(records: seq<Record>, reference: int)
    ensures forall r :: r in ActiveRecords(records, reference) <==> r in records && Active(AttemptOf(r), reference)
    decreases |records|
  {
    if records != [] {
      var rest, last := records[..|records| - 1], records[|records| - 1];
      ActiveRecordsMembers(rest, reference);
      assert records == rest + [last];
    }
  }

  /** The ledger file; every operation runs under its lock. */
  class LedgerFile {
    var disk: Ledger

    method Write(ledger: ShadowLedger, size: Ledger -> nat, write: WriteOutcome) returns (ok: bool)
      modifies this, ledger
      ensures disk == AfterWrite(old(disk), old(ledger.Value()), size, write)
      ensures ok == WriteSucceeds(old(ledger.Value()), size, write)
    {
      ok := ledger.Trim(size);
      if !ok { return; }
      if write.Replaces() { disk := ledger.Value(); }
      ok := write.Written?;
    }

    /** ClaimLedgerAttempt, for a record that passed validation. */
    method Claim(record: Record, size: Ledger -> nat, write: WriteOutcome) returns (claimed: bool)
      modifies this
      ensures var r := PendingRecord(record);
              if Claimable(old(disk), r)
              then disk == AfterWrite(old(disk), Updated(old(disk), r), size, write) &&
                   claimed == WriteSucceeds(Updated(old(disk), r), size, write)
              else disk == old(disk) && !claimed
      ensures claimed ==> !Blocks(old(disk), record.hash, Instant(old(disk), record.createdAt))
      ensures !claimed && !Blocks(old(disk), record.hash, Instant(old(disk), record.createdAt)) ==>
                write.WriteFailed? || Fitted(Counted(Updated(old(disk), PendingRecord(record))), size).None?
    {
      var r := PendingRecord(record);
      ClaimableExactlyWhenUnblocked(disk, r);
      var ledger := new ShadowLedger(disk);
      var reference := Reference(disk, r.createdAt);
      ledger.Prune(reference);
      ActiveAttemptsMembers(disk.attempts, reference);
      ActiveRecordsMembers(disk.records, reference);
      var taken := ledger.IsTaken(r.hash, reference);
      assert taken <==> !Claimable(disk, r);
      if taken { return false; }
      ledger.UpsertAttempt(AttemptOf(r));
      ledger.UpsertRecord(r);
      ledger.updatedAt := Some(reference);
      claimed := Write(ledger, size, write);
    }

    /** AppendLedger, for a record that passed validation. */
    method Append(record: Record, size: Ledger -> nat, write: WriteOutcome) returns (ok: bool)
      modifies this
      ensures disk == AfterWrite(old(disk), Updated(old(disk), record), size, write)
      ensures ok == WriteSucceeds(Updated(old(disk), record), size, write)
    {
      var ledger := new ShadowLedger(disk);
      var reference := Reference(disk, record.createdAt);
      ledger.Prune(reference);
      ledger.UpsertAttempt(AttemptOf(record));
      ledger.UpsertRecord(record);
      ledger.updatedAt := Some(reference);
      ok := Write(ledger, size, write);
    }
  }
}
