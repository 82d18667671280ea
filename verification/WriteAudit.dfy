/** The append-only audit of bot writes. backend/internal/actions/bot_write_audit.go. */
module WriteAudit {
  import opened Wrappers
  import opened Previews

  datatype WriteKind = WriteConfirmed | WriteReconciled | WriteOther

  datatype AuditRecord = AuditRecord(
    id: string, initiatedBy: string, confirmedBy: string, kind: Kind, failureId: string, targetRepo: string,
    resultUrl: string, outcome: WriteKind, initiatedAt: Option<int>, confirmedAt: Option<int>)

  type Audit = map<string, AuditRecord>

  predicate Complete(r: AuditRecord) {
    && r.id != "" && r.initiatedBy != "" && r.confirmedBy != "" && r.kind != OtherKind("")
    && r.targetRepo != "" && r.resultUrl != "" && !r.outcome.WriteOther?
    && r.initiatedAt.Some? && r.confirmedAt.Some?
  }

  /** A retry may differ in when and how it was confirmed, in nothing else. */
  predicate SameBotWrite(left: AuditRecord, right: AuditRecord) {
    left.(confirmedAt := None, outcome := WriteOther) == right.(confirmedAt := None, outcome := WriteOther)
  }

  predicate Recorded(audit: Audit, r: AuditRecord, loads: bool, write: WriteOutcome) {
    Complete(r) && loads && if r.id in audit then SameBotWrite(audit[r.id], r) else write.Written?
  }

  function AfterRecord(audit: Audit, r: AuditRecord, loads: bool, write: WriteOutcome): Audit {
    if Complete(r) && loads && r.id !in audit && write.Replaces() then audit[r.id := r] else audit
  }

  /** The same write: equal in everything but when and how it was confirmed. */
  predicate Repeats(a: AuditRecord, r: AuditRecord) {
    && a.id == r.id && a.initiatedBy == r.initiatedBy && a.confirmedBy == r.confirmedBy && a.kind == r.kind
    && a.failureId == r.failureId && a.targetRepo == r.targetRepo && a.resultUrl == r.resultUrl && a.initiatedAt == r.initiatedAt
  }

  /** Success means the write is on record under its id, complete; a record already there is never
      replaced, and is accepted again only for the same write. */
  lemma RecordedMeansOnRecord(audit: Audit, r: AuditRecord, loads: bool, write: WriteOutcome)
    ensures Recorded(audit, r, loads, write) ==>
              r.id in AfterRecord(audit, r, loads, write) && (AfterRecord(audit, r, loads, write)[r.id].id == r.id ==>
                Repeats(AfterRecord(audit, r, loads, write)[r.id], r))
    ensures forall id :: id in audit ==> id in AfterRecord(audit, r, loads, write) && AfterRecord(audit, r, loads, write)[id] == audit[id]
    ensures r.id in audit && audit[r.id].id == r.id && Recorded(audit, r, loads, write) ==> Repeats(audit[r.id], r)
    ensures AfterRecord(audit, r, loads, write) != audit ==> r.id !in audit && AfterRecord(audit, r, loads, write) == audit[r.id := r]
  {
  }

  /** A record that lacks anything is refused and changes nothing. */
  lemma IncompleteIsRefused(audit: Audit, r: AuditRecord, loads: bool, write: WriteOutcome)
    requires r.id == "" || r.initiatedBy == "" || r.confirmedBy == "" || r.kind == OtherKind("") || r.targetRepo == "" || r.resultUrl == "" ||
             r.initiatedAt.None? || r.confirmedAt.None? || r.outcome == WriteOther || !loads
    ensures !Recorded(audit, r, loads, write) && AfterRecord(audit, r, loads, write) == audit
  {
  }

  /** A complete one is accepted exactly when it repeats what is there, or is new and gets written. */
  lemma CompleteIsAccepted(audit: Audit, r: AuditRecord, write: WriteOutcome)
    requires r.id != "" && r.initiatedBy != "" && r.confirmedBy != "" && r.kind != OtherKind("") && r.targetRepo != "" && r.resultUrl != ""
    requires r.initiatedAt.Some? && r.confirmedAt.Some? && r.outcome != WriteOther && (r.id in audit ==> audit[r.id].id == r.id)
    ensures Recorded(audit, r, true, write) <==> if r.id in audit then Repeats(audit[r.id], r) else write.Written?
  {
  }

  class Store {
    var disk: Audit

    /** Add a record, or accept one that repeats what is already there. The file may be unreadable
        (loads is false) and its write may fail. */
    method Record(record: AuditRecord, loads: bool, write: WriteOutcome) returns (ok: bool)
      modifies this`disk
      ensures disk == AfterRecord(old(disk), record, loads, write)
      ensures ok == Recorded(old(disk), record, loads, write)
    {
      if record.id == "" || record.initiatedBy == "" || record.confirmedBy == "" || record.kind == OtherKind("") ||
         record.targetRepo == "" || record.resultUrl == "" {
        return false;
      }
      if record.initiatedAt.None? || record.confirmedAt.None? { return false; }
      if record.outcome != WriteConfirmed && record.outcome != WriteReconciled { return false; }
      if !loads { return false; }
      if record.id in disk { return SameBotWrite(disk[record.id], record); }
      if write.Replaces() { disk := disk[record.id := record]; }
      return write.Written?;
    }
  }
}
