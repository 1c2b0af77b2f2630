/** The two tables behind scheduled push delivery, and what each UPDATE or
    INSERT of the repository does to them as a function of the table before.

    A table is a sequence: the position is the autoincrement id, and rows are
    never removed. */
module DeliveryRows {
  import opened Prelude

  type Hash = string

  datatype RowStatus = Pending | InProgress | Completed | Failed | Unknown | Abandoned

  /** scheduled_notification_deliveries */
  datatype Row = Row(log: nat, hash: Hash, status: RowStatus, code: Option<int>, attempts: nat)

  datatype DType = D3 | D1

  datatype LogStatus = LogPending | LogInProgress | LogCompleted | LogFailed

  /** scheduled_notification_logs; times are integers */
  datatype Log = Log(
    event: int, dType: DType, status: LogStatus,
    accepted: nat, failed: nat, sentAt: Option<int>, updatedAt: int)

  /** What a worker learned about one endpoint. */
  datatype Attempt = Attempt(ok: bool, code: Option<int>, uncertain: bool)

  /** A subscription as the worker loaded it; readable means its fields decrypt. */
  datatype Sub = Sub(hash: Hash, readable: bool)

  function Hashes(subs: seq<Sub>): seq<Hash> {
    seq(|subs|, i requires 0 <= i < |subs| => subs[i].hash)
  }

  datatype DeliveryCounts = DeliveryCounts(accepted: nat, failed: nat)

  // ---- deliveries ----

  predicate Claimable(st: RowStatus) { st == Pending || st == Failed }

  predicate Matches(r: Row, log: nat, hash: Hash) { r.log == log && r.hash == hash }

  /** The unique index on (scheduled_log_id, endpoint_hash). */
  ghost predicate UniqueRows(rows: seq<Row>) {
    forall i, j ::
      0 <= i < |rows| && 0 <= j < |rows| && rows[i].log == rows[j].log && rows[i].hash == rows[j].hash ==> i == j
  }

  /** The id of the row for (log, hash). */
  function Find(rows: seq<Row>, log: nat, hash: Hash): (r: Option<nat>)
    ensures r.Some? ==> r.value < |rows| && Matches(rows[r.value], log, hash)
    ensures r.None? ==> forall i :: 0 <= i < |rows| ==> !Matches(rows[i], log, hash)
  {
    if |rows| == 0 then None
    else if Matches(rows[|rows| - 1], log, hash) then Some(|rows| - 1)
    else Find(rows[..|rows| - 1], log, hash)
  }

  predicate NonEmpty(h: Hash) { h != "" }

  function Clean(hashes: seq<Hash>): seq<Hash> { Dedupe(Filter(hashes, NonEmpty)) }

  lemma CleanMeaning(hashes: seq<Hash>)
    ensures Distinct(Clean(hashes))
    ensures forall h :: h in Clean(hashes) <==> h in hashes && h != ""
  {
    FilterMeaning(hashes, NonEmpty);
    DedupeMeaning(Filter(hashes, NonEmpty));
  }

  /** The cleaned hashes come in the order of their first occurrence. */
  lemma {:induction false} CleanOrder(hashes: seq<Hash>)
    ensures InOrderOf(hashes, Clean(hashes))
  {
    hide Clean, InOrderOf;
    if |hashes| == 0 {
      CleanNothing();
    } else {
      var before, h := hashes[..|hashes| - 1], hashes[|hashes| - 1];
      assert hashes == before + [h];
      CleanOrder(before);
      CleanMeaning(before);
      CleanOneMore(before, h);
      OrderExtends(before, h, Clean(before));
    }
  }

  lemma CleanNothing()
    ensures Clean([]) == [] && InOrderOf<Hash>([], [])
  {
  }

  lemma CleanOneMore(hashes: seq<Hash>, h: Hash)
    ensures Clean(hashes + [h]) == if h == "" || h in Clean(hashes) then Clean(hashes) else Clean(hashes) + [h]
  {
    assert (hashes + [h])[..|hashes|] == hashes;
    var kept := Filter(hashes, NonEmpty);
    assert kept + [] == kept && (kept + [h])[..|kept|] == kept;
  }

  function AbandonedRow(r: Row, log: nat, keep: seq<Hash>): Row {
    if r.log == log && Claimable(r.status) && r.hash !in keep then r.(status := Abandoned) else r
  }

  function AbandonRows(rows: seq<Row>, log: nat, keep: seq<Hash>): seq<Row> {
    seq(|rows|, i requires 0 <= i < |rows| => AbandonedRow(rows[i], log, keep))
  }

  function NewRow(log: nat, hash: Hash): Row { Row(log, hash, Pending, None, 0) }

  /** INSERT ... ON CONFLICT DO NOTHING, one value after the other. */
  function InsertMissing(rows: seq<Row>, log: nat, hashes: seq<Hash>): seq<Row> {
    if |hashes| == 0 then rows
    else
      var r := InsertMissing(rows, log, hashes[..|hashes| - 1]);
      var h := hashes[|hashes| - 1];
      if Find(r, log, h).Some? then r else r + [NewRow(log, h)]
  }

  function EnsureRows(rows: seq<Row>, log: nat, hashes: seq<Hash>): seq<Row> {
    InsertMissing(AbandonRows(rows, log, Clean(hashes)), log, Clean(hashes))
  }

  function ClaimedRow(r: Row): Row {
    r.(status := InProgress, code := None, attempts := r.attempts + 1)
  }

  predicate ClaimHits(r: Row, log: nat, hashes: seq<Hash>) {
    r.log == log && r.hash in hashes && Claimable(r.status)
  }

  function ClaimRows(rows: seq<Row>, log: nat, hashes: seq<Hash>): seq<Row> {
    seq(|rows|, i requires 0 <= i < |rows| =>
      if ClaimHits(rows[i], log, Clean(hashes)) then ClaimedRow(rows[i]) else rows[i])
  }

  function ResultStatus(a: Attempt): RowStatus {
    if a.uncertain then Unknown else if a.ok then Completed else Failed
  }

  /** UPDATE by id: no condition on the current status. */
  function RecordedRow(r: Row, a: Attempt): Row { r.(status := ResultStatus(a), code := a.code) }

  function RecordRow(rows: seq<Row>, id: nat, a: Attempt): seq<Row> {
    if id < |rows| then rows[id := RecordedRow(rows[id], a)] else rows
  }

  function SettledRow(r: Row, picked: set<nat>): Row {
    if r.log in picked && r.status == InProgress then r.(status := Unknown, code := None) else r
  }

  /** Orphaned claims of the picked logs become unknown. */
  function SettleRows(rows: seq<Row>, picked: set<nat>): seq<Row> {
    seq(|rows|, i requires 0 <= i < |rows| => SettledRow(rows[i], picked))
  }

  function IsCompleted(log: nat): Row -> bool { (r: Row) => r.log == log && r.status == Completed }

  function IsUnresolved(log: nat): Row -> bool {
    (r: Row) => r.log == log && r.status != Completed && r.status != Abandoned
  }

  function IsAbandoned(log: nat): Row -> bool { (r: Row) => r.log == log && r.status == Abandoned }

  function Counts(rows: seq<Row>, log: nat): DeliveryCounts {
    DeliveryCounts(Count(rows, IsCompleted(log)), Count(rows, IsUnresolved(log)))
  }

  // ---- logs ----

  /** The unique index on (event_id, d_type). */
  ghost predicate UniqueLogs(logs: seq<Log>) {
    forall i, j ::
      0 <= i < |logs| && 0 <= j < |logs| && logs[i].event == logs[j].event && logs[i].dType == logs[j].dType ==> i == j
  }

  function FindLog(logs: seq<Log>, event: int, d: DType): (r: Option<nat>)
    ensures r.Some? ==> r.value < |logs| && logs[r.value].event == event && logs[r.value].dType == d
    ensures r.None? ==> forall i :: 0 <= i < |logs| ==> !(logs[i].event == event && logs[i].dType == d)
  {
    if |logs| == 0 then None
    else if logs[|logs| - 1].event == event && logs[|logs| - 1].dType == d then Some(|logs| - 1)
    else FindLog(logs[..|logs| - 1], event, d)
  }

  predicate Open(l: Log) { l.status == LogPending || l.status == LogInProgress }

  predicate Stale(l: Log, cutoff: int) { Open(l) && l.updatedAt < cutoff }

  function GrantedLog(l: Log, now: int): Log {
    l.(status := LogPending, accepted := 0, failed := 0, sentAt := None, updatedAt := now)
  }

  /** INSERT ... ON CONFLICT DO UPDATE ... WHERE status = 'failed' RETURNING. */
  function Grant(logs: seq<Log>, event: int, d: DType, now: int): (seq<Log>, Option<nat>) {
    match FindLog(logs, event, d)
    case None => (logs + [Log(event, d, LogPending, 0, 0, None, now)], Some(|logs|))
    case Some(l) =>
      if logs[l].status == LogFailed then (logs[l := GrantedLog(logs[l], now)], Some(l)) else (logs, None)
  }

  function UpdatedLog(l: Log, status: LogStatus, c: DeliveryCounts, now: int): Log {
    l.(status := status, accepted := c.accepted, failed := c.failed,
       sentAt := if status == LogCompleted then Some(now) else l.sentAt, updatedAt := now)
  }

  function UpdateLog(logs: seq<Log>, id: nat, status: LogStatus, c: DeliveryCounts, now: int): seq<Log> {
    if id < |logs| then logs[id := UpdatedLog(logs[id], status, c, now)] else logs
  }

  function FailedLog(l: Log, c: DeliveryCounts, now: int): Log {
    l.(status := LogFailed, accepted := c.accepted, failed := c.failed, sentAt := None, updatedAt := now)
  }

  /** Marks the picked logs failed with the counts the (already settled) rows give. */
  function FailLogs(logs: seq<Log>, rows: seq<Row>, picked: set<nat>, now: int): seq<Log> {
    seq(|logs|, l requires 0 <= l < |logs| =>
      if l in picked then FailedLog(logs[l], Counts(rows, l), now) else logs[l])
  }

  /** mark_log_failed falls back to the subscriber count when the log has no rows to count. */
  function FallbackCounts(c: DeliveryCounts, fallback: nat): DeliveryCounts {
    if c.accepted == 0 && c.failed == 0 && fallback > 0 then DeliveryCounts(0, fallback) else c
  }

  function FailWithFallback(logs: seq<Log>, rows: seq<Row>, l: nat, fallback: nat, now: int): seq<Log> {
    if l < |logs| then logs[l := FailedLog(logs[l], FallbackCounts(Counts(rows, l), fallback), now)] else logs
  }

  // ---- what these updates mean ----

  lemma FindUnique(rows: seq<Row>, log: nat, hash: Hash, i: nat)
    requires UniqueRows(rows) && i < |rows| && Matches(rows[i], log, hash)
    ensures Find(rows, log, hash) == Some(i)
  {
    assert Matches(rows[Find(rows, log, hash).value], log, hash);
  }

  /** Inserting keeps the old rows, appends exactly one pending row for every hash
      that had none, and keeps the unique index. */
  lemma {:induction false} InsertMeaning(rows: seq<Row>, log: nat, hashes: seq<Hash>)
    requires UniqueRows(rows)
    ensures var r := InsertMissing(rows, log, hashes);
      && rows <= r && UniqueRows(r)
      && (forall i :: |rows| <= i < |r| ==>
            r[i] == NewRow(log, r[i].hash) && r[i].hash in hashes && Find(rows, log, r[i].hash).None?)
      && (forall h :: h in hashes ==> exists i :: 0 <= i < |r| && Matches(r[i], log, h))
  {
    hide Find;
    if |hashes| > 0 {
      var n := |hashes| - 1;
      InsertMeaning(rows, log, hashes[..n]);
      var r0 := InsertMissing(rows, log, hashes[..n]);
      var r := InsertMissing(rows, log, hashes);
      assert hashes == hashes[..n] + [hashes[n]];
      forall h | h in hashes
        ensures exists i :: 0 <= i < |r| && Matches(r[i], log, h)
      {
        if h in hashes[..n] {
          var i :| 0 <= i < |r0| && Matches(r0[i], log, h);
          assert Matches(r[i], log, h);
        } else if Find(r0, log, h).Some? {
          assert Matches(r[Find(r0, log, h).value], log, h);
        } else {
          assert Matches(r[|r0|], log, h);
        }
      }
      if Find(r0, log, hashes[n]).None? {
        forall i | 0 <= i < |rows|
          ensures !Matches(rows[i], log, hashes[n])
        {
          assert rows[i] == r0[i] && !Matches(r0[i], log, hashes[n]);
        }
      }
    }
  }

  /** The whole effect of ensure_deliveries: every requested endpoint has a row, a row
      of another log or a settled or claimed row is untouched, a retryable row of
      an endpoint no longer requested is abandoned, and new rows are pending. */
  ghost predicate Prepared(before: seq<Row>, after: seq<Row>, log: nat, hashes: seq<Hash>) {
    && |before| <= |after|
    && (forall i :: 0 <= i < |before| ==>
          after[i] == if before[i].log == log && before[i].status in {Pending, Failed}
                         && (before[i].hash !in hashes || before[i].hash == "")
                      then before[i].(status := Abandoned) else before[i])
    && (forall i :: |before| <= i < |after| ==>
          after[i] == Row(log, after[i].hash, Pending, None, 0) && after[i].hash in hashes && after[i].hash != "")
    && (forall h :: h in hashes && h != "" ==> exists i :: 0 <= i < |after| && Matches(after[i], log, h))
  }

  lemma EnsureMeaning(rows: seq<Row>, log: nat, hashes: seq<Hash>)
    requires UniqueRows(rows)
    ensures UniqueRows(EnsureRows(rows, log, hashes))
    ensures Prepared(rows, EnsureRows(rows, log, hashes), log, hashes)
  {
    CleanMeaning(hashes);
    var a := AbandonRows(rows, log, Clean(hashes));
    assert forall i :: 0 <= i < |rows| ==> a[i].log == rows[i].log && a[i].hash == rows[i].hash;
    InsertMeaning(a, log, Clean(hashes));
    var r := EnsureRows(rows, log, hashes);
    assert forall i :: 0 <= i < |rows| ==> r[i] == a[i];
  }

  lemma {:induction false} InsertNothing(rows: seq<Row>, log: nat, hashes: seq<Hash>)
    requires forall h :: h in hashes ==> Find(rows, log, h).Some?
    ensures InsertMissing(rows, log, hashes) == rows
  {
    if |hashes| > 0 {
      InsertNothing(rows, log, hashes[..|hashes| - 1]);
    }
  }

  /** ensure_deliveries is idempotent, as its documentation promises. */
  lemma EnsureIdempotent(rows: seq<Row>, log: nat, hashes: seq<Hash>)
    requires UniqueRows(rows)
    ensures EnsureRows(EnsureRows(rows, log, hashes), log, hashes) == EnsureRows(rows, log, hashes)
  {
    CleanMeaning(hashes);
    EnsureMeaning(rows, log, hashes);
    var r := EnsureRows(rows, log, hashes);
    forall i | 0 <= i < |r| && r[i].log == log && Claimable(r[i].status)
      ensures r[i].hash in Clean(hashes)
    {
      if i >= |rows| {
        CleanMeaning(hashes);
        var a := AbandonRows(rows, log, Clean(hashes));
        assert forall i :: 0 <= i < |rows| ==> a[i].log == rows[i].log && a[i].hash == rows[i].hash;
        InsertMeaning(a, log, Clean(hashes));
      }
    }
    assert AbandonRows(r, log, Clean(hashes)) == r;
    forall h | h in Clean(hashes)
      ensures Find(r, log, h).Some?
    {
      var i :| 0 <= i < |r| && Matches(r[i], log, h);
    }
    InsertNothing(r, log, Clean(hashes));
  }

  /** Settling orphaned claims leaves no claim on the picked logs and changes no
      log's delivery counts: a claim and an unknown row are both unresolved. */
  lemma SettleKeepsCounts(rows: seq<Row>, picked: set<nat>, log: nat)
    ensures Counts(SettleRows(rows, picked), log) == Counts(rows, log)
    ensures forall i :: 0 <= i < |rows| && rows[i].log in picked ==> SettleRows(rows, picked)[i].status != InProgress
  {
    var t := SettleRows(rows, picked);
    CountPointwise(rows, t, IsCompleted(log), IsCompleted(log));
    CountPointwise(rows, t, IsUnresolved(log), IsUnresolved(log));
  }

  /** The ids of the log's rows in one of these states. */
  function RowsIn(rows: seq<Row>, log: nat, statuses: set<RowStatus>): set<nat> {
    set i: nat | i < |rows| && rows[i].log == log && rows[i].status in statuses
  }

  /** What the two counts count. */
  lemma {:induction false} CountsAreSizes(rows: seq<Row>, log: nat)
    ensures Counts(rows, log).accepted == |RowsIn(rows, log, {Completed})|
    ensures Counts(rows, log).failed == |RowsIn(rows, log, {Pending, InProgress, Failed, Unknown})|
  {
    CountIsSize(rows, IsCompleted(log));
    CountIsSize(rows, IsUnresolved(log));
    hide Count;
    assert RowsIn(rows, log, {Completed}) == Positions(rows, IsCompleted(log));
    assert RowsIn(rows, log, {Pending, InProgress, Failed, Unknown}) == Positions(rows, IsUnresolved(log));
  }

  function OfLog(log: nat): Row -> bool { (r: Row) => r.log == log }

  /** accepted + failed + abandoned accounts for every row of the log. */
  lemma {:induction false} CountsAccountForAll(rows: seq<Row>, log: nat)
    ensures Counts(rows, log).accepted + Counts(rows, log).failed + Count(rows, IsAbandoned(log))
         == Count(rows, OfLog(log))
    ensures Counts(rows, log).failed == 0 <==>
      forall i :: 0 <= i < |rows| && rows[i].log == log ==> rows[i].status == Completed || rows[i].status == Abandoned
  {
    var settled: Row -> bool := (r: Row) => r.log == log && (r.status == Completed || r.status == Abandoned);
    CountSplit(rows, OfLog(log), settled, IsUnresolved(log));
    CountSplit(rows, settled, IsCompleted(log), IsAbandoned(log));
    CountZero(rows, IsUnresolved(log));
  }

  /** A grant is given exactly when the pair has no log or a failed one; the granted
      log is pending and unique, and no other log changes. */
  lemma GrantMeaning(logs: seq<Log>, event: int, d: DType, now: int)
    requires UniqueLogs(logs)
    ensures var (after, granted) := Grant(logs, event, d, now);
      && UniqueLogs(after) && |logs| <= |after| <= |logs| + 1
      && (granted.None? <==>
            exists i :: 0 <= i < |logs| && logs[i].event == event && logs[i].dType == d && logs[i].status != LogFailed)
      && (granted.Some? ==>
            && granted.value < |after| && FindLog(after, event, d) == granted
            && after[granted.value] == Log(event, d, LogPending, 0, 0, None, now)
            && granted.value <= |logs| && |after| == (if granted.value < |logs| then |logs| else |logs| + 1))
      && (forall i :: 0 <= i < |logs| && granted != Some(i) ==> after[i] == logs[i])
  {
    var (after, granted) := Grant(logs, event, d, now);
    if granted.Some? {
      assert after[granted.value].event == event && after[granted.value].dType == d;
    }
  }

  /** Preparing moves rows among pending, failed and abandoned only, so it changes no
      count that looks at the other statuses. */
  lemma EnsureKeepsCount(rows: seq<Row>, log: nat, hashes: seq<Hash>, p: Row -> bool)
    requires UniqueRows(rows)
    requires forall r: Row :: r.status in {Pending, Failed, Abandoned} ==> !p(r)
    ensures Count(EnsureRows(rows, log, hashes), p) == Count(rows, p)
  {
    EnsureMeaning(rows, log, hashes);
    var r := EnsureRows(rows, log, hashes);
    hide Count, EnsureRows;
    assert r == r[..|rows|] + r[|rows|..];
    CountConcat(r[..|rows|], r[|rows|..], p);
    CountPointwise(rows, r[..|rows|], p, p);
    CountZero(r[|rows|..], p);
  }

  // ---- the log updates in plain terms ----

  /** The log's claimed rows become unknown and lose their code; no other row changes. */
  ghost predicate ClaimsLost(before: seq<Row>, after: seq<Row>, log: nat) {
    && |after| == |before|
    && forall i :: 0 <= i < |before| ==>
         after[i] == if before[i].log == log && before[i].status == InProgress
                     then Row(log, before[i].hash, Unknown, None, before[i].attempts) else before[i]
  }

  /** Log l failed now, with its completed rows as accepted and all but its abandoned other rows as
      failed; no other log changes. */
  ghost predicate LogFailedNow(before: seq<Log>, after: seq<Log>, rows: seq<Row>, l: nat, now: int) {
    && l < |before|
    && after == before[l := Log(before[l].event, before[l].dType, LogFailed, |RowsIn(rows, l, {Completed})|,
                                |RowsIn(rows, l, {Pending, InProgress, Failed, Unknown})|, None, now)]
  }

  lemma FailMeaning(logs: seq<Log>, rows: seq<Row>, l: nat, now: int)
    ensures ClaimsLost(rows, SettleRows(rows, {l}), l)
    ensures l < |logs| ==> LogFailedNow(logs, FailLogs(logs, SettleRows(rows, {l}), {l}, now), rows, l, now)
  {
    hide Counts;
    SettleKeepsCounts(rows, {l}, l);
    CountsAreSizes(rows, l);
  }

  /** The same for every log that is pending or in progress and was last updated before the cutoff. */
  ghost predicate StaleFailed(before: seq<Log>, after: seq<Log>, rows: seq<Row>, cutoff: int, now: int) {
    && |after| == |before|
    && forall l :: 0 <= l < |before| ==>
         after[l] == if before[l].status in {LogPending, LogInProgress} && before[l].updatedAt < cutoff
                     then Log(before[l].event, before[l].dType, LogFailed, |RowsIn(rows, l, {Completed})|,
                              |RowsIn(rows, l, {Pending, InProgress, Failed, Unknown})|, None, now)
                     else before[l]
  }

  ghost predicate StaleClaimsLost(logs: seq<Log>, before: seq<Row>, after: seq<Row>, cutoff: int) {
    && |after| == |before|
    && forall i :: 0 <= i < |before| ==>
         var r := before[i];
         after[i] == if r.status == InProgress && r.log < |logs| && logs[r.log].updatedAt < cutoff
                        && logs[r.log].status in {LogPending, LogInProgress}
                     then Row(r.log, r.hash, Unknown, None, r.attempts) else r
  }
}
