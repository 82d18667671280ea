/** The preview store as the server runs it: each method is one update under the state file's
    lock. Clock readings, fresh tokens and the fate of the write are arguments. */
module PreviewStore {
  import opened Wrappers
  import opened Order
  import opened Previews
  import opened PreviewFitting

  lemma ItemsGrow(s: State, keys: set<string>, key: string)
    requires keys <= s.Keys && key in s && key !in keys
    ensures multiset(ItemsOf(s, keys + {key})) == multiset(ItemsOf(s, keys)) + multiset{Item(key, s[key].createdAt)}
  {
    var item := Item(key, s[key].createdAt);
    assert item !in ItemsOf(s, keys);
    assert ItemsOf(s, keys + {key}) == ItemsOf(s, keys) + {item};
  }

  class Store {
    var disk: State
    const limits: Limits

    constructor (limits: Limits)
      ensures disk == map[] && this.limits == limits
    {
      this.disk := map[];
      this.limits := limits;
    }

    /** Load the file, dropping ready fixes that no longer verify. */
    method Load() returns (state: State, changed: bool)
      ensures state == Loaded(disk) && changed == (state != disk) == Migrates(disk)
    {
      state, changed := disk, false;
      var keys := disk.Keys;
      while keys != {}
        invariant keys <= disk.Keys
        invariant forall k :: k in state <==> k in disk && (k in keys || LoadKeeps(disk[k]))
        invariant forall k :: k in state ==> state[k] == disk[k]
        invariant changed == (state != disk) == exists k :: k in disk && k !in keys && !LoadKeeps(disk[k])
        decreases keys
      {
        var key :| key in keys;
        keys := keys - {key};
        var preview := state[key];
        if preview.status != Ready { continue; }
        var invalidVersion := preview.kind == FixKind && preview.verificationVersion != SOURCE_VERIFICATION_VERSION;
        var missingFixIdentity := preview.kind == FixKind && (preview.failureId == "" || preview.patternHash == "");
        if invalidVersion || missingFixIdentity {
          state := state - {key};
          changed := true;
          assert key in disk && key !in state;
        }
      }
    }

    /** Apply lease expiry and the time to live to every record. */
    static method Evict(loaded: State, now: int) returns (state: State, changed: bool)
      ensures state == Evicted(loaded, now) && changed == (state != loaded)
    {
      state, changed := loaded, false;
      var keys := loaded.Keys;
      while keys != {}
        invariant keys <= loaded.Keys
        invariant forall k :: k in state <==> k in loaded && (k in keys || EvictRecord(loaded[k], now).Some?)
        invariant forall k :: k in state && k in keys ==> state[k] == loaded[k]
        invariant forall k :: k in state && k !in keys ==> EvictRecord(loaded[k], now) == Some(state[k])
        invariant changed == (state != loaded)
        decreases keys
      {
        var key :| key in keys;
        keys := keys - {key};
        var kept := EvictOne(state[key], now);
        if kept == Some(state[key]) { continue; }
        state, changed := if kept.Some? then state[key := kept.value] else state - {key}, true;
        assert key !in state || state[key] != loaded[key];
      }
    }

    static method EvictOne(p: Preview, now: int) returns (kept: Option<Preview>)
      ensures kept == EvictRecord(p, now)
    {
      var cutoff, record := now - PREVIEW_TTL, p;
      if record.status == Generating {
        return if LeaseHeld(record, now) then Some(record) else None;
      }
      if record.status == Confirming {
        if LeaseHeld(record, now) { return Some(record); }
        record := record.(status := Unknown, createdAt := if record.reconciling then record.createdAt else Some(now));
        return Some(record.(leaseExpires := None, attemptId := "", reconciling := false));
      }
      if record.status == Unknown {
        if record.createdAt.None? { return None; }
        return Some(if record.createdAt.value < cutoff then record.(status := Ready, createdAt := Some(now)) else record);
      }
      kept := if record.createdAt.None? || record.createdAt.value < cutoff then None else Some(record);
    }

    /** Load, then evict only if loading changed nothing. */
    method Open(now: int) returns (state: State, changed: bool)
      ensures state == Opened(disk, now) && changed == (state != disk)
    {
      state, changed := Load();
      if !changed { state, changed := Evict(state, now); }
    }

    /** The removable records, oldest first, whatever order the map is iterated in. */
    static method Collect(given: State, protectedKey: string) returns (items: seq<Item>)
      ensures items == RemovableItems(given, protectedKey)
    {
      items := [];
      var keys := given.Keys;
      ghost var taken: set<string> := {};
      while keys != {}
        invariant keys <= given.Keys && taken <= given.Keys
        invariant taken == set k | k in given && k !in keys && Removable(given, protectedKey, k)
        invariant multiset(items) == multiset(ItemsOf(given, taken))
        decreases keys
      {
        var key :| key in keys;
        keys := keys - {key};
        var record := given[key];
        if key == protectedKey || record.status == Confirming || record.status == Confirmed || record.status == Unknown {
          continue;
        }
        ItemsGrow(given, taken, key);
        items, taken := items + [Item(key, record.createdAt)], taken + {key};
      }
      assert taken == RemovableKeys(given, protectedKey);
      SortedItemsAreUnique(given, protectedKey, items);
      items := Sort(ItemAtMost, items);
    }

    /** Delete removable records, oldest first, until the state is within its limits. */
    method Fit(given: State, protectedKey: string) returns (state: State, error: Option<PreviewError>)
      ensures state == Fitted(given, protectedKey, limits)
      ensures error == FitError(state, limits)
    {
      state := given;
      var items := Collect(given, protectedKey);
      while (|state| > MAX_PERSISTED_PREVIEWS || limits.encodedSize(state) > limits.Bytes()) && items != []
        invariant Shed(state, items, limits) == Fitted(given, protectedKey, limits)
        decreases items
      {
        state, items := state - {items[0].key}, items[1..];
      }
      if |state| > MAX_PERSISTED_PREVIEWS { return state, Some(TooManyRecords); }
      if limits.encodedSize(state) > limits.Bytes() { return state, Some(TooManyBytes); }
      error := None;
    }

    /** Write the state an operation produced, if anything changed, and report its error. */
    method Commit(ghost op: OpResult, state: State, changed: bool, protectedKey: string,
                  opError: Option<PreviewError>, write: WriteOutcome) returns (error: Option<PreviewError>)
      requires state == op.state && opError == op.error
      modifies this`disk
      ensures disk == Saved(old(disk), changed, op, protectedKey, limits, write)
      ensures error == SaveError(changed, op, protectedKey, limits, write)
    {
      if !changed { return opError; }
      var fitted, fitError := Fit(state, protectedKey);
      if fitError.Some? { return fitError; }
      if write.Replaces() { disk := fitted; }
      if write.WriteFailed? { return Some(WriteError); }
      return opError;
    }

    method Stash(owner: string, entry: Option<Entry>, freshToken: string, initiated: int, now: int, write: WriteOutcome)
      returns (token: Result<string, PreviewError>)
      modifies this`disk
      ensures var record := Persist(entry, owner, initiated);
              if owner == "" then disk == old(disk) && token == Failure(InvalidRequest)
              else if record.Failure? then disk == old(disk) && token == Failure(record.error)
              else
                var op := StashOp(Opened(old(disk), now), freshToken, record.value, now);
                var error := CommitError(old(disk), now, op, freshToken, limits, write);
                disk == Committed(old(disk), now, op, freshToken, limits, write) &&
                token == if error.Some? then Failure(error.value) else Success(freshToken)
    {
      if owner == "" { return Failure(InvalidRequest); }
      var persisted := Persist(entry, owner, initiated);
      if persisted.Failure? { return Failure(persisted.error); }
      var record := persisted.value;
      var state, changed := Open(now);
      ghost var op := StashOp(state, freshToken, record, now);
      var opError: Option<PreviewError> := None;
      var clash := FindActive(state, "", record, false);
      if clash {
        opError := Some(Pending);
      } else {
        state := state[freshToken := record.(createdAt := Some(now))];
        changed := true;
      }
      var error := Commit(op, state, changed, freshToken, opError, write);
      token := if error.Some? then Failure(error.value) else Success(freshToken);
    }

    /** Whether some record, other than an exempt key, is active for the same action. */
    static method FindActive(state: State, exempt: string, record: Preview, hasExempt: bool) returns (found: bool)
      ensures found == if hasExempt then ActiveElsewhere(state, exempt, record) else ActiveAnywhere(state, record)
    {
      found := false;
      var keys := state.Keys;
      while keys != {}
        invariant keys <= state.Keys
        invariant found == exists k :: k in state && k !in keys && !(hasExempt && k == exempt) &&
                                       SamePreviewAction(state[k], record) && Active(state[k])
        decreases keys
      {
        var key :| key in keys;
        keys := keys - {key};
        if !(hasExempt && key == exempt) && SamePreviewAction(state[key], record) && Active(state[key]) {
          found := true;
        }
      }
    }

    method StashIdempotent(owner: string, requestHash: string, entry: Option<Entry>, key: string, initiated: int, now: int, write: WriteOutcome)
      returns (token: Result<string, PreviewError>)
      modifies this`disk
      ensures var record := Persist(entry, owner, initiated);
              if owner == "" || requestHash == "" then disk == old(disk) && token == Failure(InvalidRequest)
              else if record.Failure? then disk == old(disk) && token == Failure(record.error)
              else
                var op := StashIdempotentOp(Opened(old(disk), now), key, record.value.(idempotencyKey := requestHash), now);
                var error := CommitError(old(disk), now, op, key, limits, write);
                disk == Committed(old(disk), now, op, key, limits, write) &&
                token == if error.Some? then Failure(error.value) else Success(key)
    {
      if owner == "" || requestHash == "" { return Failure(InvalidRequest); }
      var persisted := Persist(entry, owner, initiated);
      if persisted.Failure? { return Failure(persisted.error); }
      var record := persisted.value.(idempotencyKey := requestHash);
      var state, changed := Open(now);
      ghost var op := StashIdempotentOp(state, key, record, now);
      var opError: Option<PreviewError> := None;
      if key in state {
        var existing := state[key];
        if existing.owner != record.owner || existing.idempotencyKey != requestHash || !SamePreviewAction(existing, record) {
          opError := Some(TargetChanged);
        }
      } else {
        state := state[key := record.(createdAt := Some(now))];
        changed := true;
      }
      var error := Commit(op, state, changed, key, opError, write);
      token := if error.Some? then Failure(error.value) else Success(key);
    }

    method ReserveIdempotent(owner: string, requestHash: string, generationHash: string, lease: int, key: string,
                             now: int, write: WriteOutcome)
      returns (existing: Option<Entry>, acquired: bool, error: Option<PreviewError>)
      modifies this`disk
      ensures var term := if lease <= 0 then DEFAULT_REQUEST_TIMEOUT else lease;
              if owner == "" || requestHash == "" || generationHash == "" then
                disk == old(disk) && error == Some(InvalidRequest) && !acquired && existing.None?
              else
                var s := Opened(old(disk), now);
                var op := ReserveOp(s, key, owner, requestHash, generationHash, term, now);
                disk == Committed(old(disk), now, op, key, limits, write) &&
                error == CommitError(old(disk), now, op, key, limits, write) &&
                acquired == op.changed &&
                (existing.Some? ==> key in s && Restore(s[key]) == Success(existing.value)) &&
                (existing.Some? <==> !acquired && op.error.None?)
    {
      existing, acquired := None, false;
      if owner == "" || requestHash == "" || generationHash == "" { return None, false, Some(InvalidRequest); }
      var term := if lease <= 0 then DEFAULT_REQUEST_TIMEOUT else lease;
      var state, changed := Open(now);
      ghost var op := ReserveOp(state, key, owner, requestHash, generationHash, term, now);
      var opError: Option<PreviewError> := None;
      if key !in state {
        state := state[key := Reservation(owner, requestHash, generationHash, now, term)];
        acquired, changed := true, true;
      } else {
        var record := state[key];
        if record.owner != owner || record.idempotencyKey != requestHash || record.generationHash != generationHash {
          opError := Some(TargetChanged);
        } else if record.status == Generating {
          if LeaseHeld(record, now) {
            opError := Some(Pending);
          } else {
            record := record.(leaseExpires := Some(now + term));
            record := record.(createdAt := Some(now));
            state := state[key := record];
            acquired, changed := true, true;
          }
        } else {
          match Restore(record)
          case Success(entry) => existing := Some(entry);
          case Failure(e) => opError := Some(e);
        }
      }
      error := Commit(op, state, changed, key, opError, write);
    }

    method CompleteIdempotent(owner: string, key: string, requestHash: string, generationHash: string,
                              entry: Option<Entry>, now: int, write: WriteOutcome)
      returns (error: Option<PreviewError>)
      modifies this`disk
      ensures var op := CompleteOp(Opened(old(disk), now), key, owner, requestHash, generationHash, entry, now);
              disk == Committed(old(disk), now, op, key, limits, write) &&
              error == CommitError(old(disk), now, op, key, limits, write)
    {
      var state, changed := Open(now);
      ghost var op := CompleteOp(state, key, owner, requestHash, generationHash, entry, now);
      var opError: Option<PreviewError> := None;
      if key !in state || state[key].owner != owner || state[key].status != Generating ||
         state[key].idempotencyKey != requestHash || state[key].generationHash != generationHash {
        opError := Some(Superseded);
      } else {
        match Persist(entry, owner, now)
        case Failure(e) => opError := Some(e);
        case Success(completed) =>
          completed := completed.(idempotencyKey := requestHash);
          completed := completed.(generationHash := generationHash);
          state, changed := state[key := completed], true;
      }
      error := Commit(op, state, changed, key, opError, write);
    }

    method CancelIdempotent(owner: string, key: string, requestHash: string, generationHash: string, now: int, write: WriteOutcome)
      returns (error: Option<PreviewError>)
      modifies this`disk
      ensures var op := CancelIdempotentOp(Opened(old(disk), now), key, owner, requestHash, generationHash);
              disk == Committed(old(disk), now, op, "", limits, write) &&
              error == CommitError(old(disk), now, op, "", limits, write)
    {
      var state, changed := Open(now);
      ghost var op := CancelIdempotentOp(state, key, owner, requestHash, generationHash);
      var opError: Option<PreviewError> := None;
      if key in state {
        var record := state[key];
        if record.owner != owner || record.idempotencyKey != requestHash || record.generationHash != generationHash {
          opError := Some(Superseded);
        } else if record.status == Generating {
          state, changed := state - {key}, true;
        }
      }
      error := Commit(op, state, changed, "", opError, write);
    }

    method Revoke(owner: string, key: string, now: int, write: WriteOutcome) returns (error: Option<PreviewError>)
      modifies this`disk
      ensures var op := RevokeOp(Opened(old(disk), now), key, owner);
              disk == Committed(old(disk), now, op, key, limits, write) &&
              error == CommitError(old(disk), now, op, key, limits, write)
    {
      var state, changed := Open(now);
      ghost var op := RevokeOp(state, key, owner);
      var opError: Option<PreviewError> := None;
      if key in state {
        var record := state[key];
        if record.owner != owner {
          opError := Some(NotFound);
        } else {
          match record.status
          case Generating => state, changed := state - {key}, true;
          case Ready => state, changed := state - {key}, true;
          case Confirming => opError := Some(Pending);
          case Unknown => opError := Some(OutcomeUnknown);
          case Confirmed => opError := Some(OutcomeUnknown);
          case Unrecognized => opError := Some(NotFound);
        }
      }
      error := Commit(op, state, changed, key, opError, write);
    }

    /** Start a confirmation attempt, or return the URL of one that has already succeeded. */
    method Begin(owner: string, key: string, lease: int, attemptId: string, now: int, write: WriteOutcome)
      returns (entry: Option<Entry>, resultUrl: string, reconcile: bool, error: Option<PreviewError>)
      modifies this`disk
      ensures var term := if lease <= 0 then DEFAULT_REQUEST_TIMEOUT else lease;
              var s := Opened(old(disk), now);
              var op := BeginOp(s, key, owner, attemptId, term, now);
              disk == Committed(old(disk), now, op, "", limits, write) &&
              error == CommitError(old(disk), now, op, "", limits, write) &&
              (op.changed ==> entry.Some? && Restore(s[key]) == Success(entry.value) && resultUrl == "" &&
                              reconcile == (s[key].status == Unknown)) &&
              (!op.changed && op.error.None? ==> resultUrl != "" && s[key].status == Confirmed && s[key].resultUrl == resultUrl)
    {
      entry, resultUrl, reconcile := None, "", false;
      var term := if lease <= 0 then DEFAULT_REQUEST_TIMEOUT else lease;
      var state, changed := Open(now);
      ghost var op := BeginOp(state, key, owner, attemptId, term, now);
      var opError: Option<PreviewError> := None;
      if key !in state || state[key].owner != owner {
        opError := Some(NotFound);
      } else {
        var record := state[key];
        var clash := FindActive(state, key, record, true);
        if record.status == Generating {
          opError := Some(Pending);
        } else if record.status == Confirmed && record.resultUrl != "" {
          resultUrl := record.resultUrl;
        } else if clash {
          opError := Some(Pending);
        } else if record.status == Confirming && LeaseHeld(record, now) {
          opError := Some(Pending);
        } else {
          match Restore(record)
          case Failure(e) => opError := Some(e);
          case Success(restored) =>
            entry := Some(restored);
            reconcile := record.status == Unknown;
            record := record.(status := Confirming, leaseExpires := Some(now + term), attemptId := attemptId);
            record := record.(reconciling := reconcile);
            if !reconcile { record := record.(createdAt := Some(now)); }
            state, changed := state[key := record], true;
        }
      }
      error := Commit(op, state, changed, "", opError, write);
    }

    /** Record how a confirmation attempt ended. */
    method Finish(owner: string, key: string, attemptId: string, outcome: Outcome, now: int, write: WriteOutcome)
      returns (error: Option<PreviewError>)
      modifies this`disk
      ensures var op := FinishOp(Opened(old(disk), now), key, owner, attemptId, outcome, now);
              disk == Committed(old(disk), now, op, "", limits, write) &&
              error == CommitError(old(disk), now, op, "", limits, write)
    {
      var state, changed := Open(now);
      ghost var op := FinishOp(state, key, owner, attemptId, outcome, now);
      var opError: Option<PreviewError> := None;
      if key !in state || state[key].owner != owner {
        opError := Some(NotFound);
      } else if state[key].status != Confirming || state[key].attemptId != attemptId {
        opError := Some(Superseded);
      } else {
        var record := state[key];
        var wasReconciling := record.reconciling;
        record := record.(leaseExpires := None, attemptId := "", reconciling := false);
        if outcome.AttemptFailed? || outcome.url == "" {
          record := record.(status := Unknown);
          if !wasReconciling { record := record.(createdAt := Some(now)); }
          if outcome.Url? { opError := Some(EmptyResult); }
        } else {
          record := record.(status := Confirmed);
          record := record.(resultUrl := outcome.url);
          record := record.(createdAt := Some(now));
        }
        state, changed := state[key := record], true;
      }
      error := Commit(op, state, changed, "", opError, write);
    }

    method Take(owner: string, key: string, now: int, write: WriteOutcome)
      returns (entry: Option<Entry>, error: Option<PreviewError>)
      modifies this`disk
      ensures var s := Opened(old(disk), now);
              var op := TakeOp(s, key, owner);
              disk == Committed(old(disk), now, op, "", limits, write) &&
              error == CommitError(old(disk), now, op, "", limits, write) &&
              (op.changed <==> entry.Some?) && (entry.Some? ==> Restore(s[key]) == Success(entry.value))
    {
      entry := None;
      var state, changed := Open(now);
      ghost var op := TakeOp(state, key, owner);
      var opError: Option<PreviewError> := None;
      if key !in state || state[key].owner != owner {
        opError := Some(NotFound);
      } else {
        match Restore(state[key])
        case Failure(e) => opError := Some(e);
        case Success(restored) =>
          entry := Some(restored);
          state, changed := state - {key}, true;
      }
      error := Commit(op, state, changed, "", opError, write);
    }

    method Discard(owner: string, key: string, attemptId: string, now: int, write: WriteOutcome)
      returns (error: Option<PreviewError>)
      modifies this`disk
      ensures var op := DiscardOp(Opened(old(disk), now), key, owner, attemptId);
              disk == Committed(old(disk), now, op, "", limits, write) &&
              error == CommitError(old(disk), now, op, "", limits, write)
    {
      var state, changed := Open(now);
      ghost var op := DiscardOp(state, key, owner, attemptId);
      var opError: Option<PreviewError> := None;
      if key !in state || state[key].owner != owner || state[key].attemptId != attemptId {
        opError := Some(Superseded);
      } else {
        state, changed := state - {key}, true;
      }
      error := Commit(op, state, changed, "", opError, write);
    }
  }
}
