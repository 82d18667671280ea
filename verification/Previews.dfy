/** Persisted preview records and the effect of every store operation on them, as functions of
    the loaded state. backend/internal/actions/preview_store.go. Instants are nanoseconds; an
    instant that does not parse is None. A token stands for its own hash. */
module Previews {
  import opened Wrappers
  import opened Order

  const SECOND: int := 1_000_000_000
  const PREVIEW_TTL: int := 15 * 60 * SECOND
  const DEFAULT_REQUEST_TIMEOUT: int := 10 * 60 * SECOND
  const SOURCE_VERIFICATION_VERSION: int := 5
  const MAX_PERSISTED_PREVIEWS: nat := 128
  const MAX_PREVIEW_STATE_BYTES: int := 64 * 1024 * 1024

  datatype Status = Generating | Ready | Confirming | Confirmed | Unknown | Unrecognized

  datatype Kind = IssueKind | FixKind | OtherKind(name: string)

  datatype Draft = Draft(key: string, content: string)

  datatype PreviewError =
    | NotFound | Pending | Superseded | TargetChanged | OutcomeUnknown
    | InvalidRequest | InvalidRecord | EmptyResult | TooManyRecords | TooManyBytes | WriteError

  /** A draft in memory. */
  datatype Entry = Entry(
    kind: Kind, issue: Draft, fix: Option<Draft>, failureId: string, patternHash: string,
    targetRepo: string, targetConfig: string, verificationVersion: int, binding: Option<string>,
    initiatedBy: string, initiatedAt: Option<int>)

  /** A draft on disk, with the state of its confirmation. */
  datatype Preview = Preview(
    owner: string, initiatedBy: string, initiatedAt: Option<int>, kind: Kind,
    failureId: string, patternHash: string, targetRepo: string, targetConfig: string,
    verificationVersion: int, createdAt: Option<int>, status: Status, resultUrl: string,
    leaseExpires: Option<int>, attemptId: string, reconciling: bool,
    issue: Option<Draft>, fix: Option<Draft>, binding: Option<string>,
    idempotencyKey: string, generationHash: string)

  type State = map<string, Preview>

  function Persist(entry: Option<Entry>, owner: string, now: int): Result<Preview, PreviewError> {
    match entry
    case None => Failure(NotFound)
    case Some(e) =>
      var base := Preview(
        owner, owner, Some(now), e.kind, e.failureId, e.patternHash, e.targetRepo, e.targetConfig,
        e.verificationVersion, Some(now), Ready, "", None, "", false, None, None, e.binding, "", "");
      match e.kind
      case IssueKind => Success(base.(issue := Some(e.issue)))
      case FixKind => if e.fix.None? then Failure(InvalidRequest) else Success(base.(fix := e.fix))
      case OtherKind(_) => Failure(InvalidRequest)
  }

  function Restore(p: Preview): Result<Entry, PreviewError> {
    if p.initiatedBy == "" || p.owner != p.initiatedBy || p.initiatedAt.None? then Failure(InvalidRecord)
    else
      var base := Entry(
        p.kind, Draft("", ""), None, p.failureId, p.patternHash, p.targetRepo, p.targetConfig,
        p.verificationVersion, p.binding, p.initiatedBy, p.initiatedAt);
      match p.kind
      case IssueKind => if p.issue.None? then Failure(InvalidRecord) else Success(base.(issue := p.issue.value))
      case FixKind => if p.fix.None? then Failure(InvalidRecord) else Success(base.(fix := p.fix))
      case OtherKind(_) => Failure(InvalidRecord)
  }

  predicate SamePreviewAction(left: Preview, right: Preview) {
    left.kind == right.kind &&
    match left.kind
    case IssueKind =>
      left.issue.Some? && right.issue.Some? && left.issue.value.key != "" && left.issue.value.key == right.issue.value.key
    case FixKind =>
      left.fix.Some? && right.fix.Some? && left.fix.value.key != "" && left.fix.value.key == right.fix.value.key
    case OtherKind(_) => false
  }

  /** A confirmation attempt may have reached GitHub and is not settled. */
  predicate Active(p: Preview) {
    p.status == Confirming || p.status == Unknown
  }

  predicate LeaseHeld(p: Preview, now: int) {
    p.leaseExpires.Some? && now < p.leaseExpires.value
  }

  // ------------------------------------------------------------------ loading and eviction

  predicate LoadKeeps(p: Preview) {
    p.status == Ready && p.kind == FixKind ==>
      p.verificationVersion == SOURCE_VERIFICATION_VERSION && p.failureId != "" && p.patternHash != ""
  }

  /** Loading drops a ready fix: one that was verified by another version or lost its identity. */
  predicate Migrates(disk: State) {
    exists k :: k in disk && !LoadKeeps(disk[k])
  }

  function Loaded(disk: State): State {
    map k | k in disk && LoadKeeps(disk[k]) :: disk[k]
  }

  /** What eviction at one instant leaves of a record; None when it is deleted. */
  function EvictRecord(p: Preview, now: int): Option<Preview> {
    match p.status
    case Generating => if LeaseHeld(p, now) then Some(p) else None
    case Confirming =>
      if LeaseHeld(p, now) then Some(p)
      else
        var settled := p.(status := Unknown, leaseExpires := None, attemptId := "", reconciling := false);
        Some(if p.reconciling then settled else settled.(createdAt := Some(now)))
    case Unknown =>
      if p.createdAt.None? then None
      else if p.createdAt.value < now - PREVIEW_TTL then Some(p.(status := Ready, createdAt := Some(now)))
      else Some(p)
    case _ =>
      if p.createdAt.None? || p.createdAt.value < now - PREVIEW_TTL then None else Some(p)
  }

  function Evicted(s: State, now: int): State {
    map k | k in s && EvictRecord(s[k], now).Some? :: EvictRecord(s[k], now).value
  }

  /** The state an operation sees. Eviction, with the operation's own clock, is the right operand
      of a short-circuit "or": an update whose load dropped something does not evict. */
  function Opened(disk: State, now: int): State {
    if Migrates(disk) then Loaded(disk) else Evicted(disk, now)
  }

  // ------------------------------------------------------------------ size fitting

  datatype Limits = Limits(maxBytes: int, encodedSize: State -> int) {
    function Bytes(): int {
      if maxBytes <= 0 then MAX_PREVIEW_STATE_BYTES else maxBytes
    }
    predicate Fits(s: State) {
      |s| <= MAX_PERSISTED_PREVIEWS && encodedSize(s) <= Bytes()
    }
  }

  /** A removable record: its key and creation time. Go orders an unparsable time first. */
  datatype Item = Item(key: string, created: Option<int>)

  predicate ItemAtMost(a: Item, b: Item) {
    if a.created == b.created then AtMost(a.key, b.key)
    else if a.created.None? then true
    else if b.created.None? then false
    else a.created.value < b.created.value
  }

  predicate Removable(s: State, protectedKey: string, k: string) {
    k in s && k != protectedKey && s[k].status != Confirming && s[k].status != Confirmed && s[k].status != Unknown
  }

  ghost function Without(s: State, items: seq<Item>): State {
    map k | k in s && (forall i :: i in items ==> i.key != k) :: s[k]
  }

  /** Drop items from the front until the state fits or nothing removable is left. */
  function Shed(s: State, items: seq<Item>, limits: Limits): (r: State)
    ensures r.Keys <= s.Keys && forall k :: k in r ==> r[k] == s[k]
  {
    if !limits.Fits(s) && items != [] then Shed(s - {items[0].key}, items[1..], limits) else s
  }

  function ItemsOf(s: State, keys: set<string>): set<Item>
    requires keys <= s.Keys
  {
    set k | k in keys :: Item(k, s[k].createdAt)
  }

  function RemovableKeys(s: State, protectedKey: string): (r: set<string>)
    ensures r <= s.Keys
  {
    set k | k in s && Removable(s, protectedKey, k)
  }

  /** Removable records, oldest first and then by key. */
  ghost function RemovableItems(s: State, protectedKey: string): seq<Item> {
    Sort(ItemAtMost, Listed(ItemsOf(s, RemovableKeys(s, protectedKey))))
  }

  ghost function Fitted(s: State, protectedKey: string, limits: Limits): State {
    Shed(s, RemovableItems(s, protectedKey), limits)
  }

  // ------------------------------------------------------------------ operations

  /** What an operation makes of the opened state, whether it asked for a save, and its error. */
  datatype OpResult = OpResult(state: State, changed: bool, error: Option<PreviewError>)

  function Unchanged(s: State, error: Option<PreviewError>): OpResult {
    OpResult(s, false, error)
  }

  predicate ActiveElsewhere(s: State, key: string, p: Preview) {
    exists k :: k in s && k != key && SamePreviewAction(s[k], p) && Active(s[k])
  }

  predicate ActiveAnywhere(s: State, p: Preview) {
    exists k :: k in s && SamePreviewAction(s[k], p) && Active(s[k])
  }

  function StashOp(s: State, key: string, record: Preview, now: int): OpResult {
    if ActiveAnywhere(s, record) then Unchanged(s, Some(Pending))
    else OpResult(s[key := record.(createdAt := Some(now))], true, None)
  }

  function StashIdempotentOp(s: State, key: string, record: Preview, now: int): OpResult {
    if key in s then
      if s[key].owner != record.owner || s[key].idempotencyKey != record.idempotencyKey ||
         !SamePreviewAction(s[key], record)
      then Unchanged(s, Some(TargetChanged)) else Unchanged(s, None)
    else OpResult(s[key := record.(createdAt := Some(now))], true, None)
  }

  function Reservation(owner: string, requestHash: string, generationHash: string, now: int, lease: int): Preview {
    Preview(owner, owner, Some(now), FixKind, "", "", "", "", 0, Some(now), Generating, "", Some(now + lease),
            "", false, None, None, None, requestHash, generationHash)
  }

  function ReserveOp(s: State, key: string, owner: string, requestHash: string, generationHash: string,
                     lease: int, now: int): OpResult {
    if key !in s then OpResult(s[key := Reservation(owner, requestHash, generationHash, now, lease)], true, None)
    else
      var r := s[key];
      if r.owner != owner || r.idempotencyKey != requestHash || r.generationHash != generationHash
      then Unchanged(s, Some(TargetChanged))
      else if r.status == Generating then
        if LeaseHeld(r, now) then Unchanged(s, Some(Pending))
        else OpResult(s[key := r.(leaseExpires := Some(now + lease), createdAt := Some(now))], true, None)
      else Unchanged(s, if Restore(r).Failure? then Some(Restore(r).error) else None)
  }

  function CompleteOp(s: State, key: string, owner: string, requestHash: string, generationHash: string,
                      entry: Option<Entry>, now: int): OpResult {
    if key !in s || s[key].owner != owner || s[key].status != Generating ||
       s[key].idempotencyKey != requestHash || s[key].generationHash != generationHash
    then Unchanged(s, Some(Superseded))
    else match Persist(entry, owner, now)
      case Failure(e) => Unchanged(s, Some(e))
      case Success(p) =>
        OpResult(s[key := p.(idempotencyKey := requestHash, generationHash := generationHash)], true, None)
  }

  function CancelIdempotentOp(s: State, key: string, owner: string, requestHash: string, generationHash: string): OpResult {
    if key !in s then Unchanged(s, None)
    else if s[key].owner != owner || s[key].idempotencyKey != requestHash || s[key].generationHash != generationHash
    then Unchanged(s, Some(Superseded))
    else if s[key].status == Generating then OpResult(s - {key}, true, None)
    else Unchanged(s, None)
  }

  function RevokeOp(s: State, key: string, owner: string): OpResult {
    if key !in s then Unchanged(s, None)
    else if s[key].owner != owner then Unchanged(s, Some(NotFound))
    else match s[key].status
      case Generating => OpResult(s - {key}, true, None)
      case Ready => OpResult(s - {key}, true, None)
      case Confirming => Unchanged(s, Some(Pending))
      case Unknown => Unchanged(s, Some(OutcomeUnknown))
      case Confirmed => Unchanged(s, Some(OutcomeUnknown))
      case Unrecognized => Unchanged(s, Some(NotFound))
  }

  /** The record begin leaves: confirming under a new lease and attempt. Only a write attempt
      restarts the record's clock. */
  function Begun(p: Preview, attemptId: string, lease: int, now: int): Preview {
    var running := p.(status := Confirming, leaseExpires := Some(now + lease), attemptId := attemptId,
                      reconciling := p.status == Unknown);
    if p.status == Unknown then running else running.(createdAt := Some(now))
  }

  function BeginOp(s: State, key: string, owner: string, attemptId: string, lease: int, now: int): OpResult {
    if key !in s || s[key].owner != owner then Unchanged(s, Some(NotFound))
    else
      var p := s[key];
      if p.status == Generating then Unchanged(s, Some(Pending))
      else if p.status == Confirmed && p.resultUrl != "" then Unchanged(s, None)
      else if ActiveElsewhere(s, key, p) then Unchanged(s, Some(Pending))
      else if p.status == Confirming && LeaseHeld(p, now) then Unchanged(s, Some(Pending))
      else match Restore(p)
        case Failure(e) => Unchanged(s, Some(e))
        case Success(_) => OpResult(s[key := Begun(p, attemptId, lease, now)], true, None)
  }

  /** How a confirmation attempt ended, as passed to finish. */
  datatype Outcome = Url(url: string) | AttemptFailed

  function Finished(p: Preview, outcome: Outcome, now: int): Preview {
    var settled := p.(leaseExpires := None, attemptId := "", reconciling := false);
    if outcome.Url? && outcome.url != ""
    then settled.(status := Confirmed, resultUrl := outcome.url, createdAt := Some(now))
    else if p.reconciling then settled.(status := Unknown)
    else settled.(status := Unknown, createdAt := Some(now))
  }

  function FinishOp(s: State, key: string, owner: string, attemptId: string, outcome: Outcome, now: int): OpResult {
    if key !in s || s[key].owner != owner then Unchanged(s, Some(NotFound))
    else if s[key].status != Confirming || s[key].attemptId != attemptId then Unchanged(s, Some(Superseded))
    else OpResult(s[key := Finished(s[key], outcome, now)], true,
                  if outcome == Url("") then Some(EmptyResult) else None)
  }

  function TakeOp(s: State, key: string, owner: string): OpResult {
    if key !in s || s[key].owner != owner then Unchanged(s, Some(NotFound))
    else match Restore(s[key])
      case Failure(e) => Unchanged(s, Some(e))
      case Success(_) => OpResult(s - {key}, true, None)
  }

  function DiscardOp(s: State, key: string, owner: string, attemptId: string): OpResult {
    if key !in s || s[key].owner != owner || s[key].attemptId != attemptId then Unchanged(s, Some(Superseded))
    else OpResult(s - {key}, true, None)
  }

  // ------------------------------------------------------------------ committing an update

  function FitError(fitted: State, limits: Limits): Option<PreviewError> {
    if |fitted| > MAX_PERSISTED_PREVIEWS then Some(TooManyRecords)
    else if limits.encodedSize(fitted) > limits.Bytes() then Some(TooManyBytes)
    else None
  }

  /** The disk after a save: an unchanged state is not rewritten, one that cannot be fitted is not
      written, and a write either replaces the file or leaves it. */
  ghost function Saved(disk: State, changed: bool, op: OpResult, protectedKey: string, limits: Limits,
                       write: WriteOutcome): State {
    if !changed then disk
    else
      var fitted := Fitted(op.state, protectedKey, limits);
      if FitError(fitted, limits).None? && write.Replaces() then fitted else disk
  }

  ghost function SaveError(changed: bool, op: OpResult, protectedKey: string, limits: Limits,
                           write: WriteOutcome): Option<PreviewError> {
    if !changed then op.error
    else
      var fitError := FitError(Fitted(op.state, protectedKey, limits), limits);
      if fitError.Some? then fitError else if write.WriteFailed? then Some(WriteError) else op.error
  }

  /** Loading or evicting changed the state, or the operation did. */
  predicate Dirty(disk: State, now: int, op: OpResult) {
    Opened(disk, now) != disk || op.changed
  }

  ghost function Committed(disk: State, now: int, op: OpResult, protectedKey: string, limits: Limits,
                           write: WriteOutcome): State {
    Saved(disk, Dirty(disk, now, op), op, protectedKey, limits, write)
  }

  ghost function CommitError(disk: State, now: int, op: OpResult, protectedKey: string, limits: Limits,
                             write: WriteOutcome): Option<PreviewError> {
    SaveError(Dirty(disk, now, op), op, protectedKey, limits, write)
  }
}
