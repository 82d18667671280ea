/** Whole executions of the request server: at most one unresolved GitHub write per request. */
module RequestRuns {
  import opened Wrappers
  import opened Requests
  import opened RequestProtocol

  ghost predicate Execution(run: seq<World>, steps: seq<Step>) {
    |run| == |steps| + 1 && forall i :: 0 <= i < |steps| ==> Takes(run, steps, i)
  }

  ghost predicate Takes(run: seq<World>, steps: seq<Step>, i: int)
    requires |run| == |steps| + 1 && 0 <= i < |steps|
  {
    Enabled(run[i], steps[i]) && run[i + 1] == Next(run[i], steps[i])
  }

  ghost predicate AllNamed(steps: seq<Step>) {
    forall i :: 0 <= i < |steps| ==> NamesRequest(steps[i])
  }

  lemma {:induction false} ExecutionKeepsGuard(run: seq<World>, steps: seq<Step>, id: string, n: nat)
    requires Execution(run, steps) && AllNamed(steps) && WriteGuard(run[0], id) && n < |run|
    ensures WriteGuard(run[n], id)
  {
    if n > 0 {
      ExecutionKeepsGuard(run, steps, id, n - 1);
      assert Takes(run, steps, n - 1);
      StepKeepsWriteGuard(run[n - 1], steps[n - 1], id);
    }
  }

  /** A server just started on any state file in which the request has a failure id. */
  lemma StartIsGuarded(w: World, id: string)
    requires w.confirms == map[] && w.unsettled == {} && NamedIn(Cell(w.st.mem, id)) && NamedIn(Cell(w.st.disk, id))
    ensures WriteGuard(w, id)
  {
  }

  predicate Refuses(s: Step, id: string) {
    s.WriteRefused? && s.id == id
  }

  /** Only a definite refusal takes a request out of the unsettled ones. */
  lemma UnsettledUntilRefused(w: World, s: Step, id: string)
    requires Enabled(w, s) && id in w.unsettled && !Refuses(s, id)
    ensures id in Next(w, s).unsettled
  {
    if s.Create? || s.CreateAnalysis? || s.ConfirmStep? {
      CreationKeepsUnsettled(w, s);
    } else if IsSection(s) {
      SectionKeepsConfirmations(w, s);
    } else if LeavesStore(s) {
      LeavingKeepsUnsettled(w, s);
    }
  }

  lemma CreatedUnsettled(w: World, id: string, input: CreateInput, matches: Request -> bool, dropped: set<string>, write: WriteOutcome)
    ensures Created(w, id, input, matches, dropped, write).unsettled == w.unsettled
  {
  }

  lemma CreatedAnalysisUnsettled(w: World, id: string, a: AnalysisInput, dropped: set<string>, write: WriteOutcome)
    ensures CreatedAnalysis(w, id, a, dropped, write).unsettled == w.unsettled
  {
  }

  lemma ConfirmUnsettled(w: World, id: string, owner: string, checks: ConfirmChecks, now: int, dropped: set<string>, expireWrite: WriteOutcome, write: WriteOutcome)
    ensures ConfirmEntered(w, id, owner, checks, now, dropped, expireWrite, write).unsettled == w.unsettled
  {
  }

  lemma CreationKeepsUnsettled(w: World, s: Step)
    requires Enabled(w, s) && (s.Create? || s.CreateAnalysis? || s.ConfirmStep?)
    ensures Next(w, s).unsettled == w.unsettled
  {
    match s
    case Create(id, input, matches, dropped, write) => CreatedUnsettled(w, id, input, matches, dropped, write);
    case CreateAnalysis(id, a, dropped, write) => CreatedAnalysisUnsettled(w, id, a, dropped, write);
    case ConfirmStep(id, owner, checks, now, dropped, expireWrite, write) =>
      ConfirmUnsettled(w, id, owner, checks, now, dropped, expireWrite, write);
  }

  lemma LeavingKeepsUnsettled(w: World, s: Step)
    requires Enabled(w, s) && LeavesStore(s)
    ensures w.unsettled <= Next(w, s).unsettled
  {
  }

  lemma {:induction false} StaysUnsettled(run: seq<World>, steps: seq<Step>, id: string, i: nat, j: nat)
    requires Execution(run, steps) && i < j < |run| && steps[i] == CallWrite(id)
    requires forall m :: i < m < j ==> !Refuses(steps[m], id)
    ensures id in run[j].unsettled
  {
    assert Takes(run, steps, j - 1);
    if j > i + 1 {
      StaysUnsettled(run, steps, id, i, j - 1);
      UnsettledUntilRefused(run[j - 1], steps[j - 1], id);
    }
  }

  /** Across concurrent calls, failed saves, shutdown and restarts: between two calls of
      confirmEntry for one request with a failure id, the earlier one returned a definite error. */
  lemma AtMostOneUnresolvedWrite(run: seq<World>, steps: seq<Step>, id: string, i: nat, j: nat)
    requires Execution(run, steps) && AllNamed(steps) && WriteGuard(run[0], id)
    requires i < j < |steps| && steps[i] == CallWrite(id) && steps[j] == CallWrite(id)
    ensures exists m :: i < m < j && Refuses(steps[m], id)
  {
    ExecutionKeepsGuard(run, steps, id, j);
    assert Takes(run, steps, j);
    if forall m :: i < m < j ==> !Refuses(steps[m], id) {
      StaysUnsettled(run, steps, id, i, j);
    }
  }

  /** confirmEntry is called only with no unsettled call before it, and with the request unknown in
      the state file (or no longer there), so that a crash from then on can only reconcile. */
  lemma WriteStartsWithUnknownOnDisk(run: seq<World>, steps: seq<Step>, id: string, n: nat)
    requires Execution(run, steps) && AllNamed(steps) && WriteGuard(run[0], id)
    requires n < |steps| && steps[n] == CallWrite(id)
    ensures id !in run[n].unsettled
    ensures id in run[n].st.disk ==> run[n].st.disk[id].status == Unknown
    ensures id in run[n].st.mem ==> run[n].st.mem[id].status == Unknown
  {
    ExecutionKeepsGuard(run, steps, id, n);
    assert Takes(run, steps, n);
  }

  /** A confirmation enters write mode only from a ready request, after the unknown mark has been
      saved; while a write is unsettled it can only reconcile. */
  lemma WriteModeIsMarked(w: World, s: Step, id: string)
    requires Enabled(w, s) && s.ConfirmStep? && s.id == id && WriteGuard(w, id)
    requires id !in w.confirms && ConfirmAt(Next(w, s), id, Marked)
    ensures id !in w.unsettled
    ensures id in w.st.mem && w.st.mem[id].status == Ready
    ensures id in Next(w, s).st.disk && Next(w, s).st.disk[id].status == Unknown
  {
    StepKeepsWriteGuard(w, s, id);
    MarkedFromReady(w, id, s.owner, s.checks, s.now, s.dropped, s.expireWrite, s.write);
  }

  lemma MarkedFromReady(w: World, id: string, owner: string, checks: ConfirmChecks, now: int, dropped: set<string>,
                        expireWrite: WriteOutcome, write: WriteOutcome)
    requires id !in w.confirms && NamedIn(Cell(w.st.mem, id))
    requires ConfirmAt(ConfirmEntered(w, id, owner, checks, now, dropped, expireWrite, write), id, Marked)
    ensures id in w.st.mem && w.st.mem[id].status == Ready
    ensures var st := ConfirmEntered(w, id, owner, checks, now, dropped, expireWrite, write).st;
            id in st.disk && st.disk[id].status == Unknown
  {
    var st := ExpireAndSave(w.st, w.confirms.Keys, now, dropped, expireWrite);
    VerdictMeaning(st.mem, id, owner, false, checks);
    assert id in st.mem ==> st.mem[id].failureId == w.st.mem[id].failureId;
  }

  // ------------------------------------------------------------------ requests without a failure id

  /** A confirmation that passes every check of a ready request without a failure id: it may write,
      and nothing is marked. */
  predicate EntersUnmarked(w: World, s: Step) {
    && s.ConfirmStep? && s.expireWrite.Written? && s.id !in w.confirms
    && ConfirmVerdictFor(Expire(w.st, w.confirms.Keys, s.now, s.dropped).mem, s.id, s.owner, false, s.checks) == WriteUnmarked
  }

  lemma UnmarkedEnters(w: World, s: Step)
    requires Enabled(w, s) && EntersUnmarked(w, s)
    ensures Goes(w, s, w.(st := ExpireAndSave(w.st, w.confirms.Keys, s.now, s.dropped, Written),
                          confirms := w.confirms[s.id := Marked]))
  {
  }

  lemma ExpiringTwice(m: RequestMap, confirming: set<string>, now: int, dropped: set<string>)
    ensures var once := ExpireAll(m, confirming, now) - dropped; ExpireAll(once, confirming, now) == once
  {
    var once := ExpireAll(m, confirming, now) - dropped;
    forall id | id in once ensures ExpireAll(once, confirming, now)[id] == once[id] {
      RecordExpiresOnce(m[id], now);
    }
  }

  lemma RecordExpiresOnce(r: Request, now: int)
    ensures ExpireRecord(ExpireRecord(r, now), now) == ExpireRecord(r, now)
  {
  }

  lemma PruningTwice(m: RequestMap, dropped: set<string>)
    requires MayPrune(m, dropped)
    ensures MayPrune(m - dropped, {})
  {
    assert (m - dropped).Keys == m.Keys - dropped && |(m - dropped).Keys| == |m.Keys| - |dropped|;
  }

  /** The same confirmation again, after the one before it has left. */
  function Again(s: Step): Step
    requires s.ConfirmStep?
  {
    ConfirmStep(s.id, s.owner, s.checks, s.now, {}, Written, s.write)
  }

  lemma ExpiresToItself(mem: RequestMap, st: Store, keys: set<string>, now: int, dropped: set<string>)
    requires MayPrune(ExpireAll(mem, keys, now), dropped) && st.mem == ExpireAll(mem, keys, now) - dropped
    ensures Expire(st, keys, now, {}).mem == st.mem && MayPrune(ExpireAll(st.mem, keys, now), {})
  {
    ExpiringTwice(mem, keys, now, dropped);
    PruningTwice(ExpireAll(mem, keys, now), dropped);
    assert st.mem - {} == st.mem;
  }

  lemma EntersAgain(w: World, s: Step, z: World)
    requires Enabled(w, s) && EntersUnmarked(w, s)
    requires z.st.mem == Expire(w.st, w.confirms.Keys, s.now, s.dropped).mem && z.confirms == w.confirms
    ensures Enabled(z, Again(s)) && EntersUnmarked(z, Again(s))
  {
    ExpiresToItself(w.st.mem, z.st, w.confirms.Keys, s.now, s.dropped);
  }

  ghost predicate WritesTwiceUnrefused(steps: seq<Step>, id: string) {
    exists i, j :: 0 <= i < j < |steps| && steps[i] == CallWrite(id) && steps[j] == CallWrite(id) &&
      forall m :: i < m < j ==> !Refuses(steps[m], id)
  }

  ghost predicate Goes(w: World, s: Step, z: World) {
    Enabled(w, s) && z == Next(w, s)
  }

  lemma CallGoes(w: World, id: string)
    requires ConfirmAt(w, id, Marked)
    ensures Goes(w, CallWrite(id), w.(confirms := w.confirms[id := Calling], unsettled := w.unsettled + {id}))
  {
  }

  lemma UnknownGoes(w: World, id: string)
    requires ConfirmAt(w, id, Calling)
    ensures Goes(w, WriteUnknown(id), w.(confirms := w.confirms[id := Leaving]))
  {
  }

  lemma LeaveGoes(w: World, id: string)
    requires ConfirmAt(w, id, Leaving)
    ensures Goes(w, Leave(id), w.(confirms := w.confirms - {id}))
  {
  }

  /** Call, hear that the outcome is unknown, leave. */
  lemma CallAndLeave(w: World, id: string) returns (b: World, c: World, z: World)
    requires ConfirmAt(w, id, Marked)
    ensures Goes(w, CallWrite(id), b) && Goes(b, WriteUnknown(id), c) && Goes(c, Leave(id), z)
    ensures z.st == w.st && z.confirms == w.confirms - {id}
  {
    b := w.(confirms := w.confirms[id := Calling], unsettled := w.unsettled + {id});
    c := b.(confirms := b.confirms[id := Leaving]);
    z := c.(confirms := c.confirms - {id});
    CallGoes(w, id);
    UnknownGoes(b, id);
    LeaveGoes(c, id);
  }

  lemma FirstRound(w: World, s: Step) returns (a: World, b: World, c: World, z: World)
    requires Enabled(w, s) && EntersUnmarked(w, s)
    ensures Goes(w, s, a) && Goes(a, CallWrite(s.id), b) && Goes(b, WriteUnknown(s.id), c) && Goes(c, Leave(s.id), z)
    ensures z.st.mem == Expire(w.st, w.confirms.Keys, s.now, s.dropped).mem && z.confirms == w.confirms
  {
    UnmarkedEnters(w, s);
    a := w.(st := ExpireAndSave(w.st, w.confirms.Keys, s.now, s.dropped, Written), confirms := w.confirms[s.id := Marked]);
    b, c, z := CallAndLeave(a, s.id);
    assert w.confirms[s.id := Marked] - {s.id} == w.confirms;
  }

  lemma SecondRound(w: World, s: Step) returns (a: World, b: World)
    requires Enabled(w, s) && EntersUnmarked(w, s)
    ensures Goes(w, s, a) && Goes(a, CallWrite(s.id), b)
  {
    UnmarkedEnters(w, s);
    a := w.(st := ExpireAndSave(w.st, w.confirms.Keys, s.now, s.dropped, Written), confirms := w.confirms[s.id := Marked]);
    b := a.(confirms := a.confirms[s.id := Calling], unsettled := a.unsettled + {s.id});
    CallGoes(a, s.id);
  }

  lemma SixSteps(w0: World, s0: Step, w1: World, s1: Step, w2: World, s2: Step, w3: World, s3: Step, w4: World, s4: Step,
                 w5: World, s5: Step, w6: World)
    requires Goes(w0, s0, w1) && Goes(w1, s1, w2) && Goes(w2, s2, w3) && Goes(w3, s3, w4) && Goes(w4, s4, w5) && Goes(w5, s5, w6)
    ensures Execution([w0, w1, w2, w3, w4, w5, w6], [s0, s1, s2, s3, s4, s5])
  {
    var run, steps := [w0, w1, w2, w3, w4, w5, w6], [s0, s1, s2, s3, s4, s5];
    forall i | 0 <= i < |steps| ensures Takes(run, steps, i) {
      assert Goes(run[i], steps[i], run[i + 1]) by { assert i == 0 || i == 1 || i == 2 || i == 3 || i == 4 || i == 5; }
    }
  }

  function TwoRounds(id: string, first: Step, second: Step): seq<Step> {
    [first, CallWrite(id), WriteUnknown(id), Leave(id), second, CallWrite(id)]
  }

  lemma TwoRoundsWriteTwice(id: string, first: Step, second: Step)
    requires first.ConfirmStep? && second.ConfirmStep?
    ensures AllNamed(TwoRounds(id, first, second)) && WritesTwiceUnrefused(TwoRounds(id, first, second), id)
  {
    var steps := TwoRounds(id, first, second);
    assert steps[1] == CallWrite(id) && steps[5] == CallWrite(id);
    forall m | 1 < m < 5 ensures !Refuses(steps[m], id) { assert m == 2 || m == 3 || m == 4; }
  }

  /** The failure id is what the guarantee rests on: from every world in which a confirmation of a
      request without one is admitted, some execution writes twice with no refusal in between. The
      first call only has to end with its outcome unknown. */
  lemma UnnamedRequestMayWriteTwice(w: World, s: Step) returns (run: seq<World>, steps: seq<Step>)
    requires Enabled(w, s) && EntersUnmarked(w, s)
    ensures Execution(run, steps) && AllNamed(steps) && run[0] == w && steps != [] && steps[0] == s
    ensures WritesTwiceUnrefused(steps, s.id)
  {
    var a, b, c, d := FirstRound(w, s);
    EntersAgain(w, s, d);
    var e, f := SecondRound(d, Again(s));
    run := [w, a, b, c, d, e, f];
    steps := TwoRounds(s.id, s, Again(s));
    SixSteps(w, s, a, CallWrite(s.id), b, WriteUnknown(s.id), c, Leave(s.id), d, Again(s), e, CallWrite(s.id), f);
    TwoRoundsWriteTwice(s.id, s, Again(s));
  }

  /** And every ready issue draft without a failure id can be confirmed so by its owner. */
  lemma UnnamedIsConfirmable(m: RequestMap, id: string)
    requires id in m && m[id].status == Ready && m[id].failureId == "" && m[id].issue.Some?
    requires m[id].preview == Some(IssueDraft)
    ensures ConfirmVerdictFor(m, id, m[id].owner, false, ConfirmChecks(true, true, true)) == WriteUnmarked
  {
  }
}
