/** Scheduled push delivery as a protocol: any number of workers, each of whose
    database transactions is one atomic step, may interleave, stall for longer than
    the stale cutoff, fail, or crash between any two steps.

    The state is the database, the local state of every live worker, and a history
    of the provider calls. A worker that is not in the map is idle or dead. */
module DeliveryProtocol {
  import opened Prelude
  import opened DeliveryRows
  import opened PushRetry

  type WorkerId = nat

  /** Where a worker stands in process_single_event. todo is what is left of the subscriber list. */
  datatype Phase =
    | Granted(log: nat)
    | Started(log: nat)
    | Scanning(log: nat, todo: seq<Sub>)
    | Peeked(log: nat, todo: seq<Sub>, seen: Option<RowStatus>)
    | Claimed(log: nat, todo: seq<Sub>, row: nat, tries: nat)
    | Waiting(log: nat, todo: seq<Sub>, row: nat, tries: nat, call: nat)
    | Decided(log: nat, todo: seq<Sub>, row: nat, attempt: Attempt)
    | Counted(log: nat, counts: DeliveryCounts)

  /** A provider call; result is None while (or forever if) no answer was seen. */
  datatype Call = Call(row: nat, log: nat, hash: Hash, result: Option<Outcome>)

  datatype State = State(
    maxRetries: int,
    logs: seq<Log>,
    rows: seq<Row>,
    workers: map<WorkerId, Phase>,
    calls: seq<Call>,
    uncertain: nat,      // results recorded as unknown
    interrupted: nat)    // crashes and failures while holding a claim

  datatype Action =
    | Sweep(cutoff: int, now: int, picked: set<nat>)                    // reclaim_stale_log(s)
    | TakeGrant(w: WorkerId, event: int, dType: DType, now: int)        // create_notification_log
    | MarkRunning(w: WorkerId, now: int)                                // status = in_progress
    | FinishEmpty(w: WorkerId, now: int)                                // no subscriber
    | Prepare(w: WorkerId, subs: seq<Sub>)                              // ensure_deliveries
    | Peek(w: WorkerId)                                                 // get_delivery_states
    | PassOver(w: WorkerId)                                             // settled, claimed or locked row
    | Claim(w: WorkerId)                                                // claim_deliveries
    | NoCall(w: WorkerId)                                               // decryption failed
    | StartCall(w: WorkerId)
    | Answer(w: WorkerId, o: Outcome)
    | Record(w: WorkerId)                                               // record_delivery_results
    | ReadCounts(w: WorkerId)                                           // get_delivery_counts
    | Finish(w: WorkerId, now: int)                                     // final log status
    | FailRun(w: WorkerId, fallback: nat, now: int)                     // mark_log_failed
    | Crash(w: WorkerId)

  predicate Holds(p: Phase) { p.Claimed? || p.Waiting? || p.Decided? }

  predicate SkipsStatus(st: Option<RowStatus>) {
    st.Some? && !Claimable(st.value)
  }

  function Seen(rows: seq<Row>, log: nat, hash: Hash): Option<RowStatus> {
    match Find(rows, log, hash)
    case None => None
    case Some(i) => Some(rows[i].status)
  }

  predicate At(s: State, w: WorkerId) { w in s.workers }

  function Move(s: State, w: WorkerId, p: Phase): State { s.(workers := s.workers[w := p]) }

  /** The worker is gone; leaving a claim behind is an interruption. */
  function Leave(s: State, w: WorkerId): State
    requires w in s.workers
  {
    s.(workers := s.workers - {w}, interrupted := s.interrupted + (if Holds(s.workers[w]) then 1 else 0))
  }

  predicate CanSweep(s: State, cutoff: int, picked: set<nat>) {
    forall l :: l in picked ==> l < |s.logs| && Stale(s.logs[l], cutoff)
  }

  function DoSweep(s: State, now: int, picked: set<nat>): State {
    var rows := SettleRows(s.rows, picked);
    s.(rows := rows, logs := FailLogs(s.logs, rows, picked, now))
  }

  predicate CanTakeGrant(s: State, w: WorkerId, event: int, d: DType, now: int) {
    w !in s.workers && Grant(s.logs, event, d, now).1.Some?
  }

  function DoTakeGrant(s: State, w: WorkerId, event: int, d: DType, now: int): State
    requires CanTakeGrant(s, w, event, d, now)
  {
    var (logs, granted) := Grant(s.logs, event, d, now);
    s.(logs := logs, workers := s.workers[w := Granted(granted.value)])
  }

  function DoMarkRunning(s: State, w: WorkerId, now: int): State
    requires At(s, w)
  {
    var l := s.workers[w].log;
    Move(s, w, Started(l)).(logs := UpdateLog(s.logs, l, LogInProgress, DeliveryCounts(0, 0), now))
  }

  function DoFinishEmpty(s: State, w: WorkerId, now: int): State
    requires At(s, w)
  {
    s.(logs := UpdateLog(s.logs, s.workers[w].log, LogCompleted, DeliveryCounts(0, 0), now),
       workers := s.workers - {w})
  }

  function DoPrepare(s: State, w: WorkerId, subs: seq<Sub>): State
    requires At(s, w)
  {
    var l := s.workers[w].log;
    Move(s, w, Scanning(l, subs)).(rows := EnsureRows(s.rows, l, Hashes(subs)))
  }

  predicate CanPeek(s: State, w: WorkerId) { At(s, w) && s.workers[w].Scanning? && s.workers[w].todo != [] }

  function DoPeek(s: State, w: WorkerId): State
    requires CanPeek(s, w)
  {
    var p := s.workers[w];
    Move(s, w, Peeked(p.log, p.todo, Seen(s.rows, p.log, p.todo[0].hash)))
  }

  predicate CanPassOver(s: State, w: WorkerId) { At(s, w) && s.workers[w].Peeked? && s.workers[w].todo != [] }

  function DoPassOver(s: State, w: WorkerId): State
    requires CanPassOver(s, w)
  {
    Move(s, w, Scanning(s.workers[w].log, s.workers[w].todo[1..]))
  }

  /** The claim re-reads the row under lock: what was seen before only decides whether to try. */
  predicate CanClaim(s: State, w: WorkerId) {
    && CanPassOver(s, w)
    && !SkipsStatus(s.workers[w].seen)
    && var f := Find(s.rows, s.workers[w].log, s.workers[w].todo[0].hash);
    && s.workers[w].todo[0].hash != ""
    && f.Some? && Claimable(s.rows[f.value].status)
  }

  function DoClaim(s: State, w: WorkerId): State
    requires CanClaim(s, w)
  {
    var p := s.workers[w];
    var i := Find(s.rows, p.log, p.todo[0].hash).value;
    Move(s, w, Claimed(p.log, p.todo, i, 0)).(rows := s.rows[i := ClaimedRow(s.rows[i])])
  }

  predicate CanNoCall(s: State, w: WorkerId) {
    && At(s, w) && s.workers[w].Claimed? && s.workers[w].todo != []
    && (!s.workers[w].todo[0].readable || s.maxRetries < 0)
  }

  function DoNoCall(s: State, w: WorkerId): State
    requires CanNoCall(s, w)
  {
    var p := s.workers[w];
    Move(s, w, Decided(p.log, p.todo, p.row, NOT_SENT))
  }

  predicate CanStartCall(s: State, w: WorkerId) {
    && At(s, w) && s.workers[w].Claimed? && s.workers[w].todo != []
    && s.workers[w].todo[0].readable && s.workers[w].tries <= s.maxRetries
    && s.workers[w].row < |s.rows|
  }

  function DoStartCall(s: State, w: WorkerId): State
    requires CanStartCall(s, w)
  {
    var p := s.workers[w];
    Move(s, w, Waiting(p.log, p.todo, p.row, p.tries, |s.calls|)).(
      calls := s.calls + [Call(p.row, s.rows[p.row].log, s.rows[p.row].hash, None)])
  }

  predicate CanAnswer(s: State, w: WorkerId) {
    At(s, w) && s.workers[w].Waiting? && s.workers[w].call < |s.calls|
  }

  /** A provider answer either ends the endpoint or, within the budget, leaves the claim open. */
  function AfterAnswer(p: Phase, o: Outcome, maxRetries: int): Phase
    requires p.Waiting?
  {
    if Retryable(o) && p.tries < maxRetries then Claimed(p.log, p.todo, p.row, p.tries + 1)
    else Decided(p.log, p.todo, p.row, Verdict(o))
  }

  function DoAnswer(s: State, w: WorkerId, o: Outcome): State
    requires CanAnswer(s, w)
  {
    var p := s.workers[w];
    Move(s, w, AfterAnswer(p, o, s.maxRetries)).(
      calls := s.calls[p.call := s.calls[p.call].(result := Some(o))])
  }

  predicate CanRecord(s: State, w: WorkerId) { At(s, w) && s.workers[w].Decided? && s.workers[w].todo != [] }

  function DoRecord(s: State, w: WorkerId): State
    requires CanRecord(s, w)
  {
    var p := s.workers[w];
    Move(s, w, Scanning(p.log, p.todo[1..])).(
      rows := RecordRow(s.rows, p.row, p.attempt),
      uncertain := s.uncertain + (if p.attempt.uncertain then 1 else 0))
  }

  predicate CanReadCounts(s: State, w: WorkerId) { At(s, w) && s.workers[w].Scanning? && s.workers[w].todo == [] }

  function DoReadCounts(s: State, w: WorkerId): State
    requires CanReadCounts(s, w)
  {
    Move(s, w, Counted(s.workers[w].log, Counts(s.rows, s.workers[w].log)))
  }

  predicate CanFinish(s: State, w: WorkerId) { At(s, w) && s.workers[w].Counted? }

  function FinalStatus(c: DeliveryCounts): LogStatus { if c.failed > 0 then LogFailed else LogCompleted }

  function DoFinish(s: State, w: WorkerId, now: int): State
    requires CanFinish(s, w)
  {
    var p := s.workers[w];
    s.(logs := UpdateLog(s.logs, p.log, FinalStatus(p.counts), p.counts, now), workers := s.workers - {w})
  }

  function DoFailRun(s: State, w: WorkerId, fallback: nat, now: int): State
    requires At(s, w)
  {
    var l := s.workers[w].log;
    var rows := SettleRows(s.rows, {l});
    Leave(s, w).(rows := rows, logs := FailWithFallback(s.logs, rows, l, fallback, now))
  }

  predicate Enabled(s: State, a: Action) {
    match a
    case Sweep(cutoff, _, picked) => CanSweep(s, cutoff, picked)
    case TakeGrant(w, event, d, now) => CanTakeGrant(s, w, event, d, now)
    case MarkRunning(w, _) => At(s, w) && s.workers[w].Granted?
    case FinishEmpty(w, _) => At(s, w) && s.workers[w].Started?
    case Prepare(w, subs) => At(s, w) && s.workers[w].Started? && subs != []
    case Peek(w) => CanPeek(s, w)
    case PassOver(w) => CanPassOver(s, w)
    case Claim(w) => CanClaim(s, w)
    case NoCall(w) => CanNoCall(s, w)
    case StartCall(w) => CanStartCall(s, w)
    case Answer(w, _) => CanAnswer(s, w)
    case Record(w) => CanRecord(s, w)
    case ReadCounts(w) => CanReadCounts(s, w)
    case Finish(w, _) => CanFinish(s, w)
    case FailRun(w, _, _) => At(s, w)
    case Crash(w) => At(s, w)
  }

  function Step(s: State, a: Action): State
    requires Enabled(s, a)
  {
    match a
    case Sweep(_, now, picked) => DoSweep(s, now, picked)
    case TakeGrant(w, event, d, now) => DoTakeGrant(s, w, event, d, now)
    case MarkRunning(w, now) => DoMarkRunning(s, w, now)
    case FinishEmpty(w, now) => DoFinishEmpty(s, w, now)
    case Prepare(w, subs) => DoPrepare(s, w, subs)
    case Peek(w) => DoPeek(s, w)
    case PassOver(w) => DoPassOver(s, w)
    case Claim(w) => DoClaim(s, w)
    case NoCall(w) => DoNoCall(s, w)
    case StartCall(w) => DoStartCall(s, w)
    case Answer(w, o) => DoAnswer(s, w, o)
    case Record(w) => DoRecord(s, w)
    case ReadCounts(w) => DoReadCounts(s, w)
    case Finish(w, now) => DoFinish(s, w, now)
    case FailRun(w, fallback, now) => DoFailRun(s, w, fallback, now)
    case Crash(w) => Leave(s, w)
  }

  ghost predicate Init(s: State) {
    s.logs == [] && s.rows == [] && s.workers == map[] && s.calls == [] && s.uncertain == 0 && s.interrupted == 0
  }

  // ---- the ownership invariant ----

  ghost predicate HoldsRow(s: State, w: WorkerId, i: nat) {
    w in s.workers && Holds(s.workers[w]) && s.workers[w].row == i
  }

  /** A call that was answered with a refusal; anything else may have been delivered. */
  predicate Refused(c: Call) { c.result.Some? && !c.result.value.ok && c.result.value.status.Some? }

  /** The worker is in the middle of call c, or has its possibly delivered answer in hand. */
  predicate Busy(p: Phase, c: nat) {
    || (p.Waiting? && p.call == c)
    || (p.Decided? && (p.attempt.ok || p.attempt.uncertain))
  }

  ghost predicate ClaimsOwned(s: State) {
    && (forall w :: w in s.workers && Holds(s.workers[w]) ==>
          && s.workers[w].row < |s.rows|
          && s.workers[w].todo != []
          && (s.rows[s.workers[w].row].status == InProgress || s.rows[s.workers[w].row].status == Unknown))
    && (forall v, w :: v in s.workers && w in s.workers && Holds(s.workers[v]) && Holds(s.workers[w]) && v != w ==>
          s.workers[v].row != s.workers[w].row)
    && (forall w :: w in s.workers && s.workers[w].Waiting? ==>
          && s.workers[w].call < |s.calls|
          && s.calls[s.workers[w].call].row == s.workers[w].row
          && s.calls[s.workers[w].call].result == None)
  }

  ghost predicate CallsOnRows(s: State) {
    forall c :: 0 <= c < |s.calls| ==>
      && s.calls[c].row < |s.rows|
      && s.calls[c].log == s.rows[s.calls[c].row].log
      && s.calls[c].hash == s.rows[s.calls[c].row].hash
  }

  /** Only the last call of a row may be anything but a refusal. */
  ghost predicate EarlierRefused(s: State) {
    forall c, d :: 0 <= c < d < |s.calls| && s.calls[c].row == s.calls[d].row ==> Refused(s.calls[c])
  }

  /** A possibly delivered call keeps its row out of reach: the row can no longer be
      claimed, and whoever still holds it is busy with that very call. */
  ghost predicate DeliveredSealed(s: State) {
    && (forall c :: 0 <= c < |s.calls| && !Refused(s.calls[c]) ==>
          && s.calls[c].row < |s.rows|
          && s.rows[s.calls[c].row].status in {InProgress, Unknown, Completed})
    && (forall c, w :: 0 <= c < |s.calls| && !Refused(s.calls[c]) && HoldsRow(s, w, s.calls[c].row) ==>
          Busy(s.workers[w], c))
  }

  ghost predicate Inv(s: State) {
    && UniqueRows(s.rows)
    && UniqueLogs(s.logs)
    && ClaimsOwned(s)
    && CallsOnRows(s)
    && EarlierRefused(s)
    && DeliveredSealed(s)
  }

  /** What every step does to a row it does not own: rows keep their identity, and a
      row's status only moves along these edges unless its holder records. */
  ghost predicate RowsEvolve(before: seq<Row>, after: seq<Row>) {
    && |before| <= |after|
    && (forall i :: 0 <= i < |before| ==>
          && after[i].log == before[i].log && after[i].hash == before[i].hash
          && (after[i].status == before[i].status
              || (before[i].status == InProgress && after[i].status == Unknown)
              || (Claimable(before[i].status) && after[i].status == Abandoned)))
    && (forall i :: |before| <= i < |after| ==> after[i].status == Pending)
  }

  lemma SettleEvolves(rows: seq<Row>, picked: set<nat>)
    ensures RowsEvolve(rows, SettleRows(rows, picked))
    ensures UniqueRows(rows) ==> UniqueRows(SettleRows(rows, picked))
  {
    var t := SettleRows(rows, picked);
    assert forall i :: 0 <= i < |rows| ==> t[i].log == rows[i].log && t[i].hash == rows[i].hash;
  }

  lemma EnsureEvolves(rows: seq<Row>, log: nat, hashes: seq<Hash>)
    requires UniqueRows(rows)
    ensures RowsEvolve(rows, EnsureRows(rows, log, hashes))
    ensures UniqueRows(EnsureRows(rows, log, hashes))
  {
    EnsureMeaning(rows, log, hashes);
  }

  /** Steps that move rows only along RowsEvolve and let workers only keep or drop
      their claims preserve the invariant. */
  lemma InvPassive(s: State, t: State)
    requires Inv(s) && UniqueRows(t.rows) && UniqueLogs(t.logs)
    requires RowsEvolve(s.rows, t.rows) && t.calls == s.calls
    requires forall w :: w in t.workers && Holds(t.workers[w]) ==> w in s.workers && s.workers[w] == t.workers[w]
    ensures Inv(t)
  {
  }

  lemma ClaimSealed(s: State, w: WorkerId)
    requires ClaimsOwned(s) && DeliveredSealed(s) && CanClaim(s, w)
    ensures DeliveredSealed(DoClaim(s, w))
  {
    hide Find;
  }

  lemma ClaimOwned(s: State, w: WorkerId)
    requires UniqueRows(s.rows) && ClaimsOwned(s) && CanClaim(s, w)
    ensures UniqueRows(DoClaim(s, w).rows) && ClaimsOwned(DoClaim(s, w))
  {
    hide Find;
  }

  lemma InvClaim(s: State, w: WorkerId)
    requires Inv(s) && CanClaim(s, w)
    ensures Inv(DoClaim(s, w))
  {
    ClaimOwned(s, w);
    ClaimSealed(s, w);
    hide Find, ClaimsOwned, DeliveredSealed;
  }

  lemma InvNoCall(s: State, w: WorkerId)
    requires Inv(s) && CanNoCall(s, w)
    ensures Inv(DoNoCall(s, w))
  {
  }

  /** The new call is the row's last, and every earlier call of the row was refused: a possibly
      delivered one would find the holder busy. */
  lemma StartCallRefused(s: State, w: WorkerId)
    requires ClaimsOwned(s) && EarlierRefused(s) && DeliveredSealed(s) && CanStartCall(s, w)
    ensures EarlierRefused(DoStartCall(s, w))
  {
    var t := DoStartCall(s, w);
    var n := |s.calls|;
    forall c | 0 <= c < n && s.calls[c].row == t.calls[n].row
      ensures Refused(s.calls[c])
    {
      assert HoldsRow(s, w, s.calls[c].row);
    }
    hide ClaimsOwned, DeliveredSealed;
    assert forall c :: 0 <= c < n ==> t.calls[c] == s.calls[c];
  }

  lemma StartCallSealed(s: State, w: WorkerId)
    requires ClaimsOwned(s) && DeliveredSealed(s) && CanStartCall(s, w)
    ensures ClaimsOwned(DoStartCall(s, w)) && DeliveredSealed(DoStartCall(s, w))
  {
  }

  lemma InvStartCall(s: State, w: WorkerId)
    requires Inv(s) && CanStartCall(s, w)
    ensures Inv(DoStartCall(s, w))
  {
    StartCallRefused(s, w);
    StartCallSealed(s, w);
    hide ClaimsOwned, EarlierRefused, DeliveredSealed;
  }

  lemma AnswerSealed(s: State, w: WorkerId, o: Outcome)
    requires ClaimsOwned(s) && DeliveredSealed(s) && CanAnswer(s, w)
    ensures ClaimsOwned(DoAnswer(s, w, o)) && DeliveredSealed(DoAnswer(s, w, o))
  {
  }

  lemma InvAnswer(s: State, w: WorkerId, o: Outcome)
    requires Inv(s) && CanAnswer(s, w)
    ensures Inv(DoAnswer(s, w, o))
  {
    AnswerSealed(s, w, o);
    assert s.calls[s.workers[w].call].result == None;
    hide ClaimsOwned, DeliveredSealed;
  }

  lemma RecordSealed(s: State, w: WorkerId)
    requires ClaimsOwned(s) && DeliveredSealed(s) && CanRecord(s, w)
    ensures DeliveredSealed(DoRecord(s, w))
  {
    var t := DoRecord(s, w);
    assert HoldsRow(s, w, s.workers[w].row);
    assert forall v, i :: HoldsRow(t, v, i) ==> v != w && HoldsRow(s, v, i);
  }

  lemma RecordOwned(s: State, w: WorkerId)
    requires UniqueRows(s.rows) && ClaimsOwned(s) && CanRecord(s, w)
    ensures UniqueRows(DoRecord(s, w).rows) && ClaimsOwned(DoRecord(s, w))
  {
  }

  lemma InvRecord(s: State, w: WorkerId)
    requires Inv(s) && CanRecord(s, w)
    ensures Inv(DoRecord(s, w))
  {
    RecordOwned(s, w);
    RecordSealed(s, w);
    hide ClaimsOwned, DeliveredSealed, UniqueRows;
  }

  /** Steps that touch a log or a worker without a claim. */
  lemma InvLogStep(s: State, a: Action)
    requires Inv(s) && Enabled(s, a)
    requires a.MarkRunning? || a.FinishEmpty? || a.Finish? || a.TakeGrant?
    ensures Inv(Step(s, a))
  {
    if a.TakeGrant? {
      GrantMeaning(s.logs, a.event, a.dType, a.now);
    }
    InvPassive(s, Step(s, a));
  }

  lemma InvLocalStep(s: State, a: Action)
    requires Inv(s) && Enabled(s, a)
    requires a.Peek? || a.PassOver? || a.ReadCounts? || a.Crash?
    ensures Inv(Step(s, a))
  {
    InvPassive(s, Step(s, a));
  }

  lemma InvSweep(s: State, a: Action)
    requires Inv(s) && Enabled(s, a)
    requires a.Sweep? || a.FailRun?
    ensures Inv(Step(s, a))
  {
    SettleEvolves(s.rows, if a.Sweep? then a.picked else {s.workers[a.w].log});
    InvPassive(s, Step(s, a));
  }

  lemma InvPrepare(s: State, w: WorkerId, subs: seq<Sub>)
    requires Inv(s) && At(s, w) && !Holds(s.workers[w])
    ensures Inv(DoPrepare(s, w, subs))
  {
    EnsureEvolves(s.rows, s.workers[w].log, Hashes(subs));
    InvPassive(s, DoPrepare(s, w, subs));
  }

  lemma InvStep(s: State, a: Action)
    requires Inv(s) && Enabled(s, a)
    ensures Inv(Step(s, a))
  {
    match a
    case Claim(w) => InvClaim(s, w);
    case NoCall(w) => InvNoCall(s, w);
    case StartCall(w) => InvStartCall(s, w);
    case Answer(w, o) => InvAnswer(s, w, o);
    case Record(w) => InvRecord(s, w);
    case Prepare(w, subs) => InvPrepare(s, w, subs);
    case Sweep(_, _, _) => InvSweep(s, a);
    case FailRun(_, _, _) => InvSweep(s, a);
    case Peek(_) => InvLocalStep(s, a);
    case PassOver(_) => InvLocalStep(s, a);
    case ReadCounts(_) => InvLocalStep(s, a);
    case Crash(_) => InvLocalStep(s, a);
    case _ => InvLogStep(s, a);
  }
}
