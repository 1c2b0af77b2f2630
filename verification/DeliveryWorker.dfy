/** One uninterrupted worker: its loops over batches and endpoints, and process_single_event
    from taking the pair's log to settling it. */
module DeliveryWorker {
  import opened Prelude
  import opened DeliveryRows
  import opened PushRetry
  import opened ScheduledStore
  import opened DeliveryRun
  import opened RunOutcomes

  // ---- the worker's loops ----

  method PrepareScheduledDelivery(store: Store, hash: Hash, log: nat)
    returns (claim: Option<DeliveryClaim>, state: Option<RowStatus>)
    requires store.Valid()
    modifies store`rows
    ensures store.Valid()
    ensures var f := if hash == "" then None else Find(old(store.rows), log, hash);
      if f.Some? && old(store.rows)[f.value].status in {Pending, Failed} then
        && claim == Some(DeliveryClaim(f.value, hash)) && state == None
        && store.rows == old(store.rows)[f.value := ClaimedRow(old(store.rows)[f.value])]
        && store.rows[f.value] == Row(log, hash, InProgress, None, old(store.rows)[f.value].attempts + 1)
      else
        && claim == None && store.rows == old(store.rows)
        && state == (if f.Some? then Some(old(store.rows)[f.value].status) else None)
  {
    hide Claimed, ClaimRows, ClaimList, Clean, UniqueRows, UniqueLogs;
    var states := store.GetDeliveryStates(log, [hash]);
    state := if hash in states then Some(states[hash]) else None;
    if state.Some? && state.value in {Completed, Unknown, Abandoned, InProgress} {
      return None, state;
    }
    ClaimOne(store.rows, log, hash);
    var claims := store.ClaimDeliveries(log, [hash]);
    if |claims| > 0 {
      return Some(claims[0]), None;
    }
    claim := None;
  }

  lemma ClaimThenRecord(rows: seq<Row>, i: nat, a: Attempt)
    requires i < |rows|
    ensures RecordRow(rows[i := ClaimedRow(rows[i])], i, a) == Delivered(rows, i, a)
  {
  }

  /** Between the claim and the counting: call the provider if the fields decrypt, and record. */
  method CallAndRecord(store: Store, provider: Provider, sub: Sub, claim: DeliveryClaim, maxRetries: int)
    returns (attempt: Attempt)
    requires store.Valid()
    modifies store`rows, provider
    ensures store.Valid()
    ensures attempt == AttemptFor(sub, provider.stream, old(provider.made), maxRetries)
    ensures var n := CallsFor(sub, provider.stream, old(provider.made), maxRetries);
      && provider.made == old(provider.made) + n
      && provider.sent == old(provider.sent) + SentCalls(sub.hash, provider.stream, old(provider.made), n)
    ensures store.rows == RecordRow(old(store.rows), claim.id, attempt)
    ensures sub.readable ==> AnswersDecide(provider.stream, old(provider.made), provider.made, maxRetries)
    ensures claim.id < |old(store.rows)| ==>
      store.rows == old(store.rows)[claim.id := WithResult(old(store.rows)[claim.id], attempt)]
  {
    hide AnswersDecide, Recorded;
    attempt := NOT_SENT;
    NothingSent(provider.sent, sub.hash, provider.stream, provider.made);
    if sub.readable {
      var slept: real;
      attempt, slept := SendWithRetry(provider, sub.hash, maxRetries);
    }
    var result := DeliveryResult(claim, attempt);
    assert [result][..0] == [];
    store.RecordDeliveryResults([result]);
  }

  /** A row that is not claimed adds a failure if it is unknown, and nothing otherwise. */
  lemma RunSubPassed(r: RunState, log: nat, sub: Sub, stream: Stream, maxRetries: int, state: Option<RowStatus>)
    requires var f := RowFor(r.rows, log, sub);
      (f.None? || r.rows[f.value].status !in {Pending, Failed})
      && state == (if f.Some? then Some(r.rows[f.value].status) else None)
    ensures RunSub(r, log, sub, stream, maxRetries) ==
      if state == Some(Unknown) then r.(failed := r.failed + 1, items := r.items + [SendItem(sub.hash, false, None)])
      else r
  {
  }

  /** A claimed row is called and recorded, and counts by the attempt. */
  lemma RunSubClaimed(r: RunState, log: nat, sub: Sub, stream: Stream, maxRetries: int, i: nat)
    requires RowFor(r.rows, log, sub) == Some(i) && r.rows[i].status in {Pending, Failed}
    ensures var n, a := CallsFor(sub, stream, r.pos, maxRetries), AttemptFor(sub, stream, r.pos, maxRetries);
      RunSub(r, log, sub, stream, maxRetries) == RunState(
        RecordRow(r.rows[i := ClaimedRow(r.rows[i])], i, a), r.pos + n,
        r.accepted + (if a.ok then 1 else 0), r.failed + (if a.ok then 0 else 1),
        r.items + [SendItem(sub.hash, a.ok, a.code)], r.expired + (if sub.readable && Gone(a) then [sub.hash] else []),
        r.calls + SentCalls(sub.hash, stream, r.pos, n))
  {
    hide Find;
    ClaimThenRecord(r.rows, i, AttemptFor(sub, stream, r.pos, maxRetries));
  }

  method SendBatchChunk(store: Store, provider: Provider, batch: seq<Sub>, log: nat, maxRetries: int)
    returns (accepted: nat, failed: nat)
    requires store.Valid()
    modifies store`rows, store`sendLog, store`subscriptions, provider
    ensures store.Valid()
    ensures var r := RunSubs(Start(old(store.rows), old(provider.made)), log, batch, provider.stream, maxRetries);
      && store.rows == r.rows && provider.made == r.pos && provider.sent == old(provider.sent) + r.calls
      && accepted == r.accepted && failed == r.failed
      && store.sendLog == old(store.sendLog) + r.items
      && store.subscriptions == old(store.subscriptions) - SetOf(r.expired)
  {
    hide Count, CallsFor, AttemptFor, ClaimRows, ClaimList, Find, RecordRow, SentCalls;
    hide ClaimedRow, UniqueRows, UniqueLogs, AnswersDecide, WithResult, RunSub;
    accepted, failed := 0, 0;
    var items: seq<SendItem>, expired: seq<Hash> := [], [];
    ghost var r := Start(store.rows, provider.made);
    ghost var first := r;
    RunNone(first, log, batch, provider.stream, maxRetries);
    hide RunSubs;
    for i := 0 to |batch|
      invariant store.Valid()
      invariant r == RunSubs(first, log, batch[..i], provider.stream, maxRetries)
      invariant r == RunState(store.rows, provider.made, accepted, failed, items, expired, r.calls)
      invariant provider.sent == old(provider.sent) + r.calls
      invariant store.sendLog == old(store.sendLog) && store.subscriptions == old(store.subscriptions)
    {
      var sub := batch[i];
      RunOneMore(first, log, batch, i, provider.stream, maxRetries);
      var claim, state := PrepareScheduledDelivery(store, sub.hash, log);
      if claim.None? {
        RunSubPassed(r, log, sub, provider.stream, maxRetries, state);
        r := RunSub(r, log, sub, provider.stream, maxRetries);
        if state == Some(Unknown) {
          failed := failed + 1;
          items := items + [SendItem(sub.hash, false, None)];
        }
        continue;
      }
      RunSubClaimed(r, log, sub, provider.stream, maxRetries, claim.value.id);
      ghost var n := CallsFor(sub, provider.stream, provider.made, maxRetries);
      Assoc(old(provider.sent), r.calls, SentCalls(sub.hash, provider.stream, provider.made, n));
      r := RunSub(r, log, sub, provider.stream, maxRetries);
      var attempt := CallAndRecord(store, provider, sub, claim.value, maxRetries);
      if attempt.ok {
        accepted := accepted + 1;
      } else {
        failed := failed + 1;
        if sub.readable && attempt.code.Some? && attempt.code.value in {404, 410} {
          expired := expired + [sub.hash];
        }
      }
      items := items + [SendItem(sub.hash, attempt.ok, attempt.code)];
    }
    assert batch[..|batch|] == batch;
    store.sendLog := store.sendLog + items;
    store.subscriptions := store.subscriptions - SetOf(expired);
  }

  method SendBatchNotifications(
    store: Store, provider: Provider, subs: seq<Sub>, log: nat, batchSize: nat, maxRetries: int)
    returns (result: DeliveryCounts)
    requires store.Valid() && batchSize > 0
    modifies store`rows, store`sendLog, store`subscriptions, provider
    ensures store.Valid()
    ensures var r := FullRun(old(store.rows), old(provider.made), log, subs, provider.stream, maxRetries);
      && store.rows == r.rows && provider.made == r.pos && provider.sent == old(provider.sent) + r.calls
      && store.sendLog == old(store.sendLog) + r.items
      && store.subscriptions == old(store.subscriptions) - SetOf(r.expired)
    ensures result == Counts(store.rows, log)
    ensures Distinct(Hashes(subs)) ==>
      var calls := provider.sent[|old(provider.sent)|..];
      && Grouped(calls, maxRetries)
      && store.subscriptions == old(store.subscriptions) - ForgottenIn(calls)
      && exists ready ::
           && Prepared(old(store.rows), ready, log, Hashes(subs))
           && RowsTell(ready, store.rows, calls, log, Hashes(subs))
           && CallsWhom(ready, calls, log, subs, maxRetries)
    ensures Distinct(Hashes(subs)) ==>
      var r := FullRun(old(store.rows), old(provider.made), log, subs, provider.stream, maxRetries);
      && result.accepted == Count(old(store.rows), IsCompleted(log)) + r.accepted
      && result.failed == r.failed + Count(old(store.rows), IsUnknownOutside(log, Hashes(subs)))
                        + Count(old(store.rows), IsClaimed(log))
  {
    hide Count, EnsureRows, RunSub, CallsFrom, Prepared, Told, Grouped, ForgottenIn, RowsTell, CallsWhom;
    store.EnsureDeliveries(log, Hashes(subs));
    ghost var r := Start(store.rows, provider.made);
    ghost var first := r;
    var accepted, failed := 0, 0;
    var i := 0;
    RunNone(first, log, subs, provider.stream, maxRetries);
    hide RunSubs;
    while i < |subs|
      invariant store.Valid() && 0 <= i <= |subs|
      invariant r == RunSubs(first, log, subs[..i], provider.stream, maxRetries)
      invariant store.rows == r.rows && provider.made == r.pos && provider.sent == old(provider.sent) + r.calls
      invariant accepted == r.accepted && failed == r.failed
      invariant store.sendLog == old(store.sendLog) + r.items
      invariant store.subscriptions == old(store.subscriptions) - SetOf(r.expired)
    {
      var end := if i + batchSize < |subs| then i + batchSize else |subs|;
      var batch := subs[i..end];
      RunChunk(first, log, subs, i, end, provider.stream, maxRetries);
      ghost var chunk := RunSubs(Start(r.rows, r.pos), log, batch, provider.stream, maxRetries);
      SetOfConcat(r.expired, chunk.expired);
      Assoc(old(provider.sent), r.calls, chunk.calls);
      var chunkAccepted, chunkFailed := SendBatchChunk(store, provider, batch, log, maxRetries);
      accepted := accepted + chunkAccepted;
      failed := failed + chunkFailed;
      r := RunSubs(first, log, subs[..end], provider.stream, maxRetries);
      i := end;
    }
    assert subs[..|subs|] == subs;
    if Distinct(Hashes(subs)) {
      RunAccounting(old(store.rows), old(provider.made), log, subs, provider.stream, maxRetries);
      var ready := FullRunTells(old(store.rows), old(provider.made), log, subs, provider.stream, maxRetries);
      assert provider.sent[|old(provider.sent)|..] == r.calls;
      ToldParts(ready, r, log, subs, maxRetries);
    }
    result := store.GetDeliveryCounts(log);
  }

  // ---- one event ----

  const STALE_AFTER := 15 * 60
  const BATCH_SIZE := 50
  const MAX_RETRIES := 3

  datatype ProcessResult = ProcessResult(skipped: bool, accepted: nat, failed: nat)

  /** The pair's log is finished, or someone else's and not yet stale. */
  predicate Occupied(logs: seq<Log>, event: int, d: DType, now: int) {
    var f := FindLog(logs, event, d);
    f.Some? && logs[f.value].status != LogFailed && !Stale(logs[f.value], now - STALE_AFTER)
  }

  /** The pair's log was completed, or is pending or in progress and was updated in the last 15 minutes. */
  ghost predicate Taken(logs: seq<Log>, event: int, d: DType, now: int) {
    exists i :: 0 <= i < |logs| && logs[i].event == event && logs[i].dType == d
      && (logs[i].status == LogCompleted
          || (logs[i].status in {LogPending, LogInProgress} && logs[i].updatedAt >= now - 900))
  }

  lemma OccupiedIsTaken(logs: seq<Log>, event: int, d: DType, now: int)
    requires UniqueLogs(logs)
    ensures Occupied(logs, event, d, now) <==> Taken(logs, event, d, now)
  {
    hide FindLog;
  }

  ghost predicate AllSettled(rows: seq<Row>, log: nat) {
    forall i :: 0 <= i < |rows| && rows[i].log == log ==> rows[i].status == Completed || rows[i].status == Abandoned
  }

  /** The rows a new run starts from: a stale log's claims have become unknown. */
  function RowsAtGrant(logs: seq<Log>, rows: seq<Row>, event: int, d: DType): seq<Row> {
    var f := FindLog(logs, event, d);
    if f.Some? && Open(logs[f.value]) then SettleRows(rows, {f.value}) else rows
  }

  /** The logs after the stale one, if any, was reclaimed. */
  function LogsReclaimed(logs: seq<Log>, rows: seq<Row>, event: int, d: DType, now: int): seq<Log> {
    var f := FindLog(logs, event, d);
    if f.Some? && Stale(logs[f.value], now - STALE_AFTER) then FailLogs(logs, rows, {f.value}, now) else logs
  }

  /** The tables once the pair's log is granted and marked in progress. */
  function AcquiredLogs(logs: seq<Log>, rows: seq<Row>, event: int, d: DType, now: int): (seq<Log>, Option<nat>) {
    var (granted, id) := Grant(LogsReclaimed(logs, rows, event, d, now), event, d, now);
    if id.Some? then (UpdateLog(granted, id.value, LogInProgress, DeliveryCounts(0, 0), now), id) else (granted, id)
  }

  /** What process_single_event does without interruption; log is the pair's log unless skipped. */
  datatype EventRun = EventRun(
    skipped: bool, log: nat, logs: seq<Log>, rows: seq<Row>, pos: nat, calls: seq<Sent>, counts: DeliveryCounts)

  function RunEvent(
    logs: seq<Log>, rows: seq<Row>, pos: nat, event: int, d: DType, subs: seq<Sub>, stream: Stream, now: int): EventRun
  {
    var none := DeliveryCounts(0, 0);
    var (acquired, id) := AcquiredLogs(logs, rows, event, d, now);
    if Occupied(logs, event, d, now) || id.None? then EventRun(true, 0, logs, rows, pos, [], none)
    else
      var ready := RowsAtGrant(logs, rows, event, d);
      if subs == [] then
        EventRun(false, id.value, UpdateLog(acquired, id.value, LogCompleted, none, now), ready, pos, [], none)
      else
        var r := FullRun(ready, pos, id.value, subs, stream, MAX_RETRIES);
        var c := Counts(r.rows, id.value);
        var status := if c.failed > 0 then LogFailed else LogCompleted;
        EventRun(false, id.value, UpdateLog(acquired, id.value, status, c, now), r.rows, r.pos, r.calls, c)
  }

  /** After the reclaim a grant is refused exactly when the pair was occupied, in which case
      the reclaim changed nothing; otherwise only the granted log differs from before. */
  lemma GrantUnlessOccupied(logs: seq<Log>, before: seq<Log>, rows: seq<Row>, event: int, d: DType, now: int)
    requires UniqueLogs(before) && logs == LogsReclaimed(before, rows, event, d, now)
    ensures Occupied(before, event, d, now) ==> logs == before
    ensures (exists i :: 0 <= i < |logs| && SentAlready(logs[i], event, d)) ==> Occupied(before, event, d, now)
    ensures var (after, granted) := Grant(logs, event, d, now);
      && (granted.None? <==> Occupied(before, event, d, now))
      && (granted.Some? ==>
            && FindLog(after, event, d) == granted && |before| <= |after| && granted.value < |after|
            && (FindLog(before, event, d).Some? ==> FindLog(before, event, d) == granted)
            && (granted.value < |before| ==> FindLog(before, event, d).Some?)
            && (forall l :: 0 <= l < |before| && l != granted.value ==> after[l] == before[l]))
  {
    LogsKeepPairs(before, logs, event, d);
    GrantMeaning(logs, event, d, now);
    hide FailLogs;
    var f := FindLog(before, event, d);
    forall i | 0 <= i < |logs| && logs[i].event == event && logs[i].dType == d
      ensures f == Some(i)
    {
      assert before[i].event == event;
    }
  }

  lemma {:induction false} LogsKeepPairs(before: seq<Log>, after: seq<Log>, event: int, d: DType)
    requires |before| == |after|
    requires forall l :: 0 <= l < |before| ==> after[l].event == before[l].event && after[l].dType == before[l].dType
    ensures FindLog(after, event, d) == FindLog(before, event, d)
  {
    if |before| > 0 {
      LogsKeepPairs(before[..|before| - 1], after[..|after| - 1], event, d);
    }
  }

  /** The pair's log is fresh and in progress, no other log has changed, and if the log had been left
      open its claims are lost. */
  ghost predicate Acquired(
    logs: seq<Log>, after: seq<Log>, rows: seq<Row>, ready: seq<Row>, event: int, d: DType, l: nat, now: int)
  {
    && l <= |logs| && |after| == (if l < |logs| then |logs| else |logs| + 1)
    && after[l] == Log(event, d, LogInProgress, 0, 0, None, now)
    && (forall i :: 0 <= i < |logs| && i != l ==> after[i] == logs[i])
    && (if l < |logs| && logs[l].status in {LogPending, LogInProgress} then ClaimsLost(rows, ready, l)
        else ready == rows)
    && (l < |logs| ==> logs[l].event == event && logs[l].dType == d)
  }

  lemma AcquiredMeaning(logs: seq<Log>, rows: seq<Row>, event: int, d: DType, now: int)
    requires UniqueLogs(logs)
    ensures !Occupied(logs, event, d, now) ==>
      var (acquired, id) := AcquiredLogs(logs, rows, event, d, now);
      && id.Some?
      && Acquired(logs, acquired, rows, RowsAtGrant(logs, rows, event, d), event, d, id.value, now)
  {
    hide Grant, FindLog, SettleRows, LogsReclaimed, ClaimsLost, Occupied;
    var reclaimed := LogsReclaimed(logs, rows, event, d, now);
    ReclaimKeepsPairs(logs, rows, event, d, now);
    GrantUnlessOccupied(reclaimed, logs, rows, event, d, now);
    GrantMeaning(reclaimed, event, d, now);
    var (granted, id) := Grant(reclaimed, event, d, now);
    if !Occupied(logs, event, d, now) {
      hide GrantedLog, UniqueLogs;
      ReclaimedPairs(logs, rows, event, d, now, id.value);
      FoundIsGranted(logs, event, d, id.value);
      RowsGranted(logs, rows, event, d, id.value);
    }
  }

  lemma FoundIsGranted(logs: seq<Log>, event: int, d: DType, l: nat)
    requires FindLog(logs, event, d).Some? ==> FindLog(logs, event, d) == Some(l)
    requires l < |logs| ==> FindLog(logs, event, d).Some?
    ensures l < |logs| ==> logs[l].event == event && logs[l].dType == d
  {
    hide FindLog;
  }

  lemma RowsGranted(logs: seq<Log>, rows: seq<Row>, event: int, d: DType, l: nat)
    requires FindLog(logs, event, d).Some? ==> FindLog(logs, event, d) == Some(l)
    requires l < |logs| ==> FindLog(logs, event, d).Some?
    ensures var ready := RowsAtGrant(logs, rows, event, d);
      if l < |logs| && logs[l].status in {LogPending, LogInProgress} then ClaimsLost(rows, ready, l)
      else ready == rows
  {
    FailMeaning([], rows, l, 0);
    hide FindLog, SettleRows, ClaimsLost;
  }

  /** Reclaiming keeps the number of logs and their pairs. */
  lemma ReclaimedPairs(logs: seq<Log>, rows: seq<Row>, event: int, d: DType, now: int, l: nat)
    ensures var reclaimed := LogsReclaimed(logs, rows, event, d, now);
      && |reclaimed| == |logs|
      && (l < |logs| ==> reclaimed[l].event == logs[l].event && reclaimed[l].dType == logs[l].dType)
  {
    hide FindLog, Counts;
  }

  /** The first half of process_single_event: reclaim this pair's stale log, give up if the
      pair was sent or is taken, and otherwise hold a log marked in progress. */
  method AcquireLog(store: Store, event: int, d: DType, now: int) returns (log: Option<nat>)
    requires store.Valid()
    modifies store`logs, store`rows
    ensures store.Valid()
    ensures log.None? <==> Occupied(old(store.logs), event, d, now)
    ensures log.None? ==> store.logs == old(store.logs) && store.rows == old(store.rows)
    ensures log.Some? ==>
      && (store.logs, log) == AcquiredLogs(old(store.logs), old(store.rows), event, d, now)
      && store.rows == RowsAtGrant(old(store.logs), old(store.rows), event, d)
      && log.value < |store.logs|
    ensures log.None? <==> Taken(old(store.logs), event, d, now)
    ensures log.Some? ==>
      Acquired(old(store.logs), store.logs, old(store.rows), store.rows, event, d, log.value, now)
  {
    hide Count, Taken, Acquired, LogFailedNow, ClaimsLost, Stale, Open, Occupied, FindLog, FailLogs, SettleRows;
    hide Grant, LogsReclaimed, RowsAtGrant, UpdateLog, SentAlready, UniqueRows, UniqueLogs, GrantedLog;
    OccupiedIsTaken(store.logs, event, d, now);
    AcquiredMeaning(store.logs, store.rows, event, d, now);
    ReclaimIsStart(store.logs, store.rows, event, d, now);
    var reclaimed := store.ReclaimStaleLog(event, d, now - STALE_AFTER, now);
    GrantUnlessOccupied(store.logs, old(store.logs), old(store.rows), event, d, now);
    var sent := store.IsAlreadySent(event, d);
    if sent {
      return None;
    }
    log := store.CreateNotificationLog(event, d, now);
    if log.Some? {
      store.UpdateNotificationLog(log.value, LogInProgress, DeliveryCounts(0, 0), now);
    }
  }

  /** What the reclaim leaves is what a run starts from; an occupied pair it leaves alone. */
  lemma ReclaimIsStart(logs: seq<Log>, rows: seq<Row>, event: int, d: DType, now: int)
    ensures var f := FindLog(logs, event, d);
      var stale := f.Some? && Stale(logs[f.value], now - STALE_AFTER);
      var settled := if stale then SettleRows(rows, {f.value}) else rows;
      && LogsReclaimed(logs, rows, event, d, now) == (if stale then FailLogs(logs, settled, {f.value}, now) else logs)
      && (!Occupied(logs, event, d, now) ==> RowsAtGrant(logs, rows, event, d) == settled)
      && (Occupied(logs, event, d, now) ==> !stale)
  {
    hide FindLog, FailLogs, SettleRows;
    var f := FindLog(logs, event, d);
    if f.Some? {
      FailLogsBySettled(logs, rows, {f.value}, now);
    }
  }

  /** process_single_event without interruption. subs is what get_eligible_subscriptions returns. */
  method ProcessSingleEvent(store: Store, provider: Provider, event: int, d: DType, subs: seq<Sub>, now: int)
    returns (r: ProcessResult)
    requires store.Valid()
    modifies store, provider
    ensures store.Valid()
    ensures var t := RunEvent(old(store.logs), old(store.rows), old(provider.made), event, d, subs,
                              provider.stream, now);
      && r == ProcessResult(t.skipped, t.counts.accepted, t.counts.failed)
      && store.logs == t.logs && store.rows == t.rows
      && provider.made == t.pos && provider.sent == old(provider.sent) + t.calls
    ensures Distinct(Hashes(subs)) ==>
      store.subscriptions == old(store.subscriptions) - ForgottenIn(provider.sent[|old(provider.sent)|..])
  {
    assert ForgottenIn([]) == {};
    hide Count, FindLog, FullRun, SettleRows, Occupied, AcquiredLogs, RowsAtGrant;
    var granted := AcquireLog(store, event, d, now);
    if granted.None? {
      return ProcessResult(true, 0, 0);
    }
    var id := granted.value;
    if subs == [] {
      store.UpdateNotificationLog(id, LogCompleted, DeliveryCounts(0, 0), now);
      return ProcessResult(false, 0, 0);
    }
    var c := SendBatchNotifications(store, provider, subs, id, BATCH_SIZE, MAX_RETRIES);
    store.UpdateNotificationLog(id, if c.failed > 0 then LogFailed else LogCompleted, c, now);
    r := ProcessResult(false, c.accepted, c.failed);
  }

  /** A run is skipped exactly when its pair was completed, or is pending or in progress and was updated in
      the last 15 minutes; it then changes nothing. Otherwise it works on the pair's log, which ends with the
      counts it returns, failed if any is, and leaves every other log alone. */
  lemma RunEventMeaning(
    logs: seq<Log>, rows: seq<Row>, pos: nat, event: int, d: DType, subs: seq<Sub>, stream: Stream, now: int)
    requires UniqueLogs(logs)
    ensures var t := RunEvent(logs, rows, pos, event, d, subs, stream, now);
      && (t.skipped <==> Taken(logs, event, d, now))
      && (t.skipped ==> t == EventRun(true, 0, logs, rows, pos, [], DeliveryCounts(0, 0)))
      && (!t.skipped ==> t.log < |t.logs| && LogsAfterEvent(logs, t.logs, event, d, t.log, t.counts, now))
      && (!t.skipped ==> FindLog(t.logs, event, d) == Some(t.log))
  {
    hide FullRun, Counts, AcquiredLogs, Occupied, RowsAtGrant, Taken, FindLog, UpdateLog, LogsAfterEvent, Acquired;
    var t := RunEvent(logs, rows, pos, event, d, subs, stream, now);
    OccupiedIsTaken(logs, event, d, now);
    AcquiredMeaning(logs, rows, event, d, now);
    AcquiredFound(logs, rows, event, d, now);
    var (acquired, id) := AcquiredLogs(logs, rows, event, d, now);
    if !t.skipped {
      SettledMeaning(logs, acquired, rows, RowsAtGrant(logs, rows, event, d), event, d, id.value, t.counts, now);
    }
  }

  /** The final update of an acquired log. */
  lemma SettledMeaning(
    logs: seq<Log>, acquired: seq<Log>, rows: seq<Row>, ready: seq<Row>, event: int, d: DType, l: nat,
    c: DeliveryCounts, now: int)
    requires Acquired(logs, acquired, rows, ready, event, d, l, now) && FindLog(acquired, event, d) == Some(l)
    ensures var after := UpdateLog(acquired, l, if c.failed > 0 then LogFailed else LogCompleted, c, now);
      && l < |after| && LogsAfterEvent(logs, after, event, d, l, c, now)
      && FindLog(after, event, d) == Some(l)
  {
    hide ClaimsLost, FindLog;
    var after := UpdateLog(acquired, l, if c.failed > 0 then LogFailed else LogCompleted, c, now);
    LogsKeepPairs(acquired, after, event, d);
  }

  /** The pair's log holds the counts, and no other log has changed. */
  ghost predicate LogsAfterEvent(
    before: seq<Log>, after: seq<Log>, event: int, d: DType, l: nat, c: DeliveryCounts, now: int)
  {
    && l <= |before| && |after| == (if l < |before| then |before| else |before| + 1)
    && after[l] == (if c.failed > 0 then Log(event, d, LogFailed, c.accepted, c.failed, None, now)
                    else Log(event, d, LogCompleted, c.accepted, 0, Some(now), now))
    && (forall i :: 0 <= i < |before| && i != l ==> after[i] == before[i])
  }

  lemma AcquiredFound(logs: seq<Log>, rows: seq<Row>, event: int, d: DType, now: int)
    requires UniqueLogs(logs)
    ensures var (acquired, id) := AcquiredLogs(logs, rows, event, d, now);
      id.Some? ==> FindLog(acquired, event, d) == id
  {
    var reclaimed := LogsReclaimed(logs, rows, event, d, now);
    ReclaimKeepsPairs(logs, rows, event, d, now);
    GrantMeaning(reclaimed, event, d, now);
    hide LogsReclaimed, FindLog, GrantedLog, UniqueLogs;
    var (granted, id) := Grant(reclaimed, event, d, now);
    hide Grant;
    if id.Some? {
      LogsKeepPairs(granted, UpdateLog(granted, id.value, LogInProgress, DeliveryCounts(0, 0), now), event, d);
    }
  }

  /** What a run that is not skipped does beside its log. It starts from the rows as they were, except that
      the claims of a log that had been left open are lost; without subscribers that is all. Otherwise it
      prepares the rows, calls the endpoints that are pending or failed, each until a final answer or four
      times, and counts the rows its log then has. */
  ghost predicate EventTold(logs: seq<Log>, rows: seq<Row>, t: EventRun, subs: seq<Sub>) {
    exists start ::
      && (if t.log < |logs| && logs[t.log].status in {LogPending, LogInProgress} then ClaimsLost(rows, start, t.log)
          else start == rows)
      && SentFrom(start, t, subs)
  }

  ghost predicate SentFrom(start: seq<Row>, t: EventRun, subs: seq<Sub>) {
    if subs == [] then t.rows == start && t.calls == [] && t.counts == DeliveryCounts(0, 0)
    else
      && t.counts.accepted == |RowsIn(t.rows, t.log, {Completed})|
      && t.counts.failed == |RowsIn(t.rows, t.log, {Pending, InProgress, Failed, Unknown})|
      && Grouped(t.calls, 3)
      && exists ready ::
           && Prepared(start, ready, t.log, Hashes(subs))
           && RowsTell(ready, t.rows, t.calls, t.log, Hashes(subs))
           && CallsWhom(ready, t.calls, t.log, subs, 3)
  }

  lemma RunEventTells(
    logs: seq<Log>, rows: seq<Row>, pos: nat, event: int, d: DType, subs: seq<Sub>, stream: Stream, now: int)
    requires UniqueLogs(logs) && UniqueRows(rows) && Distinct(Hashes(subs))
    ensures var t := RunEvent(logs, rows, pos, event, d, subs, stream, now);
      !t.skipped ==> EventTold(logs, rows, t, subs)
  {
    var t := RunEvent(logs, rows, pos, event, d, subs, stream, now);
    if !t.skipped {
      AcquiredMeaning(logs, rows, event, d, now);
      var start := RowsAtGrant(logs, rows, event, d);
      assert UniqueRows(start) by { SettledUnique(logs, rows, event, d); }
      hide Occupied, AcquiredLogs, UpdateLog, RowsAtGrant, FullRun, Counts, UniqueRows, UniqueLogs;
      hide ClaimsLost, SentFrom, Told, Hashes, Distinct;
      SentFromStart(t, start, pos, subs, stream);
    }
  }

  lemma SettledUnique(logs: seq<Log>, rows: seq<Row>, event: int, d: DType)
    requires UniqueRows(rows)
    ensures UniqueRows(RowsAtGrant(logs, rows, event, d))
  {
    hide FindLog;
  }

  lemma SentFromStart(t: EventRun, start: seq<Row>, pos: nat, subs: seq<Sub>, stream: Stream)
    requires UniqueRows(start) && Distinct(Hashes(subs))
    requires var r := FullRun(start, pos, t.log, subs, stream, MAX_RETRIES);
      if subs == [] then t.rows == start && t.calls == [] && t.counts == DeliveryCounts(0, 0)
      else t.rows == r.rows && t.calls == r.calls && t.counts == Counts(r.rows, t.log)
    ensures SentFrom(start, t, subs)
  {
    hide FullRun, Counts, UniqueRows, RowsIn, Grouped, RowsTell, CallsWhom, Prepared, Told, Hashes, Distinct;
    if subs != [] {
      var ready := FullRunTells(start, pos, t.log, subs, stream, MAX_RETRIES);
      ToldParts(ready, FullRun(start, pos, t.log, subs, stream, MAX_RETRIES), t.log, subs, MAX_RETRIES);
      CountsAreSizes(t.rows, t.log);
    }
  }

  lemma ReclaimKeepsPairs(logs: seq<Log>, rows: seq<Row>, event: int, d: DType, now: int)
    requires UniqueLogs(logs)
    ensures UniqueLogs(LogsReclaimed(logs, rows, event, d, now))
  {
    hide Counts, FindLog;
  }

  /** A completed run leaves every row of its log completed or abandoned exactly when it had
      subscribers or the log had nothing unresolved before: without subscribers the log is
      completed without a look at its rows. */
  lemma CompletedRunSettledIff(
    logs: seq<Log>, rows: seq<Row>, pos: nat, event: int, d: DType, subs: seq<Sub>, stream: Stream, now: int)
    requires UniqueLogs(logs)
    ensures var t := RunEvent(logs, rows, pos, event, d, subs, stream, now);
      !t.skipped ==>
        && t.log < |t.logs|
        && (t.logs[t.log].status == LogCompleted ==>
              (AllSettled(t.rows, t.log) <==> subs != [] || Counts(rows, t.log).failed == 0))
  {
    RunEventMeaning(logs, rows, pos, event, d, subs, stream, now);
    var t := RunEvent(logs, rows, pos, event, d, subs, stream, now);
    hide FullRun, AcquiredLogs, Occupied, UpdateLog, Count;
    CountsAccountForAll(t.rows, t.log);
    var f := FindLog(logs, event, d);
    if f.Some? {
      SettleKeepsCounts(rows, {f.value}, t.log);
    }
  }

  /** And it does happen: an empty run completes a log that still has a failed delivery. */
  lemma EmptyRunMayCompleteUnsettledLog(stream: Stream)
    ensures var logs := [Log(7, D1, LogFailed, 0, 1, None, 0)];
      var rows := [Row(0, "a", Failed, Some(503), 1)];
      var t := RunEvent(logs, rows, 0, 7, D1, [], stream, 1);
      && !t.skipped && t.log == 0 && t.logs == [Log(7, D1, LogCompleted, 0, 0, Some(1), 1)]
      && t.rows == rows && !AllSettled(t.rows, 0)
  {
    var logs := [Log(7, D1, LogFailed, 0, 1, None, 0)];
    var rows := [Row(0, "a", Failed, Some(503), 1)];
    assert FindLog(logs, 7, D1) == Some(0);
    assert RowsAtGrant(logs, rows, 7, D1)[0] == rows[0];
    assert LogsReclaimed(logs, rows, 7, D1, 1) == logs;
  }
}
