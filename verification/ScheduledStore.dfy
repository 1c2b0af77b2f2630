/** The repository layer: each method is one committed transaction on the tables. */
module ScheduledStore {
  import opened Prelude
  import opened DeliveryRows

  datatype DeliveryClaim = DeliveryClaim(id: nat, hash: Hash)

  datatype DeliveryResult = DeliveryResult(claim: DeliveryClaim, attempt: Attempt)

  /** A line of the general send log. */
  datatype SendItem = SendItem(hash: Hash, ok: bool, code: Option<int>)

  function ClaimList(rows: seq<Row>, log: nat, hashes: seq<Hash>): seq<DeliveryClaim> {
    if |rows| == 0 then []
    else
      var n := |rows| - 1;
      ClaimList(rows[..n], log, hashes)
      + (if ClaimHits(rows[n], log, hashes) then [DeliveryClaim(n, rows[n].hash)] else [])
  }

  /** Claiming one endpoint claims exactly its row, and only if it is pending or failed. */
  lemma ClaimOne(rows: seq<Row>, log: nat, hash: Hash)
    requires UniqueRows(rows)
    ensures var f := Find(rows, log, hash);
      var hits := hash != "" && f.Some? && Claimable(rows[f.value].status);
      && ClaimRows(rows, log, [hash]) == (if hits then rows[f.value := ClaimedRow(rows[f.value])] else rows)
      && ClaimList(rows, log, Clean([hash])) == (if hits then [DeliveryClaim(f.value, hash)] else [])
  {
    hide ClaimList, Clean, Find, UniqueRows, ClaimHits;
    ClaimListOne(rows, log, hash);
    forall i | 0 <= i < |rows|
      ensures ClaimHits(rows[i], log, Clean([hash])) <==>
        hash != "" && Find(rows, log, hash) == Some(i) && Claimable(rows[i].status)
    {
      ClaimHitsOne(rows, log, hash, i);
    }
  }

  lemma ClaimHitsOne(rows: seq<Row>, log: nat, hash: Hash, i: nat)
    requires UniqueRows(rows) && i < |rows|
    ensures ClaimHits(rows[i], log, Clean([hash])) <==>
      hash != "" && Find(rows, log, hash) == Some(i) && Claimable(rows[i].status)
  {
    CleanMeaning([hash]);
    hide Clean, Find;
    if Matches(rows[i], log, hash) {
      FindUnique(rows, log, hash, i);
    }
  }

  /** The pending and failed rows of these endpoints are claimed, each with one claim that names it, in
      order of their ids; no other row changes. */
  ghost predicate Claimed(before: seq<Row>, after: seq<Row>, claims: seq<DeliveryClaim>, log: nat, hashes: seq<Hash>) {
    && |after| == |before|
    && (forall i :: 0 <= i < |before| ==>
          var r := before[i];
          after[i] == if r.log == log && r.hash in hashes && r.hash != "" && r.status in {Pending, Failed}
                      then Row(log, r.hash, InProgress, None, r.attempts + 1) else r)
    && (forall c :: c in claims ==> c.id < |before| && after[c.id] != before[c.id] && c.hash == before[c.id].hash)
    && (forall i: nat :: i < |before| && after[i] != before[i] ==> DeliveryClaim(i, before[i].hash) in claims)
    && (forall k, l :: 0 <= k < l < |claims| ==> claims[k].id < claims[l].id)
  }

  lemma ClaimMeaning(rows: seq<Row>, log: nat, hashes: seq<Hash>)
    ensures Claimed(rows, ClaimRows(rows, log, hashes), ClaimList(rows, log, Clean(hashes)), log, hashes)
  {
    CleanMeaning(hashes);
    ClaimListMeaning(rows, log, Clean(hashes));
    hide ClaimList, Clean;
    forall i | 0 <= i < |rows|
      ensures ClaimRows(rows, log, hashes)[i] != rows[i] <==> ClaimHits(rows[i], log, Clean(hashes))
    {
      assert ClaimedRow(rows[i]).attempts != rows[i].attempts;
    }
  }

  lemma {:induction false} ClaimListMeaning(rows: seq<Row>, log: nat, hashes: seq<Hash>)
    ensures var claims := ClaimList(rows, log, hashes);
      && (forall c :: c in claims ==> c.id < |rows| && ClaimHits(rows[c.id], log, hashes) && c.hash == rows[c.id].hash)
      && (forall i: nat :: i < |rows| && ClaimHits(rows[i], log, hashes) ==> DeliveryClaim(i, rows[i].hash) in claims)
      && (forall k, l :: 0 <= k < l < |claims| ==> claims[k].id < claims[l].id)
  {
    hide ClaimHits;
    if |rows| > 0 {
      ClaimListMeaning(rows[..|rows| - 1], log, hashes);
    }
  }

  lemma ClaimListOne(rows: seq<Row>, log: nat, hash: Hash)
    requires UniqueRows(rows)
    ensures var f := Find(rows, log, hash);
      ClaimList(rows, log, Clean([hash])) ==
        if hash != "" && f.Some? && Claimable(rows[f.value].status) then [DeliveryClaim(f.value, hash)] else []
  {
    hide Clean, ClaimList, Find, UniqueRows, ClaimHits;
    var claims := ClaimList(rows, log, Clean([hash]));
    assert claims != [] ==> claims[0] in claims;
    assert |claims| > 1 ==> claims[1] in claims;
    ClaimListMeaning(rows, log, Clean([hash]));
    forall i: nat | i < |rows|
      ensures ClaimHits(rows[i], log, Clean([hash])) <==>
        hash != "" && Find(rows, log, hash) == Some(i) && Claimable(rows[i].status)
    {
      ClaimHitsOne(rows, log, hash, i);
    }
    assert claims == if claims == [] then [] else [claims[0]];
  }

  function StaleLogs(logs: seq<Log>, cutoff: int): set<nat> {
    set l | 0 <= l < |logs| && Stale(logs[l], cutoff)
  }

  lemma StaleInPlainTerms(logs: seq<Log>, cutoff: int)
    ensures StaleLogs(logs, cutoff) == set l: nat | l < |logs| && logs[l].status in {LogPending, LogInProgress}
                                                   && logs[l].updatedAt < cutoff
  {
  }

  lemma ReclaimMeaning(logs: seq<Log>, rows: seq<Row>, cutoff: int, now: int)
    ensures StaleFailed(logs, FailLogs(logs, rows, StaleLogs(logs, cutoff), now), rows, cutoff, now)
    ensures StaleClaimsLost(logs, rows, SettleRows(rows, StaleLogs(logs, cutoff)), cutoff)
  {
    hide Counts, RowsIn;
    StaleLogsFail(logs, rows, cutoff, now);
    hide FailLogs;
  }

  lemma StaleLogsFail(logs: seq<Log>, rows: seq<Row>, cutoff: int, now: int)
    ensures StaleFailed(logs, FailLogs(logs, rows, StaleLogs(logs, cutoff), now), rows, cutoff, now)
  {
    hide Counts, RowsIn;
    forall l: nat | l < |logs|
      ensures Counts(rows, l).accepted == |RowsIn(rows, l, {Completed})|
      ensures Counts(rows, l).failed == |RowsIn(rows, l, {Pending, InProgress, Failed, Unknown})|
    {
      CountsAreSizes(rows, l);
    }
  }

  /** So nothing stale is left open. */
  lemma NothingStale(before: seq<Log>, after: seq<Log>, rows: seq<Row>, cutoff: int, now: int)
    requires StaleFailed(before, after, rows, cutoff, now)
    ensures forall l :: 0 <= l < |after| && after[l].status in {LogPending, LogInProgress} ==>
      after[l].updatedAt >= cutoff
  {
    hide RowsIn;
  }

  ghost predicate Ascending(ids: seq<nat>) { forall i, j :: 0 <= i < j < |ids| ==> ids[i] < ids[j] }

  /** ORDER BY id */
  function StaleList(logs: seq<Log>, cutoff: int): (ids: seq<nat>)
    ensures forall i :: 0 <= i < |ids| ==> ids[i] < |logs|
  {
    if |logs| == 0 then []
    else
      var n := |logs| - 1;
      StaleList(logs[..n], cutoff) + (if Stale(logs[n], cutoff) then [n] else [])
  }

  lemma {:induction false} StaleListMeaning(logs: seq<Log>, cutoff: int)
    ensures var ids := StaleList(logs, cutoff);
      && Ascending(ids) && Distinct(ids)
      && SetOf(ids) == StaleLogs(logs, cutoff) && |ids| == |StaleLogs(logs, cutoff)|
  {
    var ids := StaleList(logs, cutoff);
    if |logs| > 0 {
      var n := |logs| - 1;
      StaleListMeaning(logs[..n], cutoff);
      StaleOneMore(logs, cutoff);
      var before := StaleList(logs[..n], cutoff);
      hide Stale, StaleLogs, SetOf, Ascending, Distinct;
      if Stale(logs[n], cutoff) {
        AscendingAppend(before, n);
        SetOfConcat(before, [n]);
        SetOfOne(n);
      } else {
        assert before + [] == before;
      }
    }
    AscendingDistinct(ids);
  }

  lemma AscendingAppend(ids: seq<nat>, n: nat)
    requires Ascending(ids) && forall i :: 0 <= i < |ids| ==> ids[i] < n
    ensures Ascending(ids + [n])
  {
  }

  lemma AscendingDistinct(ids: seq<nat>)
    requires Ascending(ids)
    ensures Distinct(ids)
  {
  }

  lemma SetOfOne(n: nat)
    ensures SetOf([n]) == {n}
  {
  }

  lemma StaleOneMore(logs: seq<Log>, cutoff: int)
    requires |logs| > 0
    ensures var n := |logs| - 1;
      && n !in StaleLogs(logs[..n], cutoff)
      && StaleLogs(logs, cutoff) == StaleLogs(logs[..n], cutoff) + (if Stale(logs[n], cutoff) then {n} else {})
  {
  }

  predicate SentAlready(l: Log, event: int, d: DType) {
    l.event == event && l.dType == d && (l.status == LogCompleted || l.status == LogInProgress)
  }

  /** Finalising log by log adds up to finalising the set. */
  lemma FailLogsBySettled(logs: seq<Log>, rows: seq<Row>, picked: set<nat>, now: int)
    ensures FailLogs(logs, SettleRows(rows, picked), picked, now) == FailLogs(logs, rows, picked, now)
  {
    forall l | 0 <= l < |logs|
      ensures Counts(SettleRows(rows, picked), l) == Counts(rows, l)
    {
      SettleKeepsCounts(rows, picked, l);
    }
  }

  lemma FinalizeOneMore(logs: seq<Log>, rows: seq<Row>, done: set<nat>, l: nat, now: int)
    requires l < |logs|
    ensures SettleRows(SettleRows(rows, done), {l}) == SettleRows(rows, done + {l})
    ensures FailLogs(FailLogs(logs, rows, done, now), SettleRows(rows, done + {l}), {l}, now)
         == FailLogs(logs, rows, done + {l}, now)
  {
    hide Count;
    SettleKeepsCounts(rows, done + {l}, l);
    SettleMore(rows, done, l);
  }

  lemma SettleMore(rows: seq<Row>, done: set<nat>, l: nat)
    ensures SettleRows(SettleRows(rows, done), {l}) == SettleRows(rows, done + {l})
  {
  }

  function RecordAll(rows: seq<Row>, results: seq<DeliveryResult>): seq<Row> {
    if |results| == 0 then rows
    else
      var last := results[|results| - 1];
      RecordRow(RecordAll(rows, results[..|results| - 1]), last.claim.id, last.attempt)
  }

  /** The last result for row i, or -1. */
  function LastResult(results: seq<DeliveryResult>, i: nat): (k: int)
    ensures -1 <= k < |results|
    ensures k >= 0 ==> results[k].claim.id == i
    ensures forall l :: k < l < |results| ==> results[l].claim.id != i
  {
    if |results| == 0 then -1
    else
      var n := |results| - 1;
      if results[n].claim.id == i then n else LastResult(results[..n], i)
  }

  /** Every row takes the last result given for its id, whatever its status was; no other row changes. */
  ghost predicate Recorded(before: seq<Row>, after: seq<Row>, results: seq<DeliveryResult>) {
    && |after| == |before|
    && forall i: nat :: i < |before| ==>
         var k := LastResult(results, i);
         after[i] == if k < 0 then before[i] else WithResult(before[i], results[k].attempt)
  }

  /** A lost answer makes the row unknown, and any other settles it. */
  function WithResult(r: Row, a: Attempt): Row {
    Row(r.log, r.hash, if a.uncertain then Unknown else if a.ok then Completed else Failed, a.code, r.attempts)
  }

  lemma {:induction false} RecordMeaning(rows: seq<Row>, results: seq<DeliveryResult>)
    ensures Recorded(rows, RecordAll(rows, results), results)
  {
    if |results| > 0 {
      var n := |results| - 1;
      RecordMeaning(rows, results[..n]);
      RecordKeeps(rows, results[..n]);
    }
  }

  lemma {:induction false} RecordKeeps(rows: seq<Row>, results: seq<DeliveryResult>)
    ensures var after := RecordAll(rows, results);
      |after| == |rows| && forall i :: 0 <= i < |rows| ==>
        after[i].log == rows[i].log && after[i].hash == rows[i].hash && after[i].attempts == rows[i].attempts
  {
    if |results| > 0 {
      RecordKeeps(rows, results[..|results| - 1]);
    }
  }

  class Store {
    var logs: seq<Log>
    var rows: seq<Row>
    var sendLog: seq<SendItem>
    var subscriptions: set<Hash>

    /** The two unique indexes. */
    ghost predicate Valid()
      reads this
    {
      UniqueLogs(logs) && UniqueRows(rows)
    }

    constructor ()
      ensures Valid() && logs == [] && rows == []
    {
      logs, rows, sendLog, subscriptions := [], [], [], {};
    }

    static method CleanHashes(hashes: seq<Hash>) returns (out: seq<Hash>)
      ensures out == Clean(hashes)
    {
      out := [];
      for i := 0 to |hashes|
        invariant out == Dedupe(Filter(hashes[..i], NonEmpty))
      {
        assert hashes[..i + 1][..i] == hashes[..i];
        ghost var kept := Filter(hashes[..i], NonEmpty);
        assert kept + [] == kept && (kept + [hashes[i]])[..|kept|] == kept;
        if hashes[i] != "" {
          assert Filter(hashes[..i + 1], NonEmpty) == kept + [hashes[i]];
          if hashes[i] !in out {
            out := out + [hashes[i]];
          }
        }
      }
      assert hashes[..|hashes|] == hashes;
    }

    method EnsureDeliveries(log: nat, hashes: seq<Hash>)
      requires Valid()
      modifies this`rows
      ensures Valid()
      ensures rows == EnsureRows(old(rows), log, hashes)
      ensures Prepared(old(rows), rows, log, hashes)
    {
      EnsureMeaning(rows, log, hashes);
      var keep := CleanHashes(hashes);
      for i := 0 to |rows|
        invariant |rows| == |old(rows)|
        invariant forall j :: 0 <= j < |rows| ==>
          rows[j] == if j < i then AbandonedRow(old(rows)[j], log, keep) else old(rows)[j]
      {
        if rows[i].log == log && Claimable(rows[i].status) && rows[i].hash !in keep {
          rows := rows[i := rows[i].(status := Abandoned)];
        }
      }
      ghost var kept := AbandonRows(old(rows), log, keep);
      assert rows == kept;
      for i := 0 to |keep|
        invariant rows == InsertMissing(kept, log, keep[..i])
      {
        assert keep[..i + 1][..i] == keep[..i];
        if Find(rows, log, keep[i]).None? {
          rows := rows + [NewRow(log, keep[i])];
        }
      }
      assert keep[..|keep|] == keep;
    }

    method GetDeliveryStates(log: nat, hashes: seq<Hash>) returns (states: map<Hash, RowStatus>)
      ensures forall h :: h in states <==> h in hashes && h != "" && Find(rows, log, h).Some?
      ensures forall h :: h in states ==> states[h] == rows[Find(rows, log, h).value].status
    {
      CleanMeaning(hashes);
      var wanted := CleanHashes(hashes);
      states := map[];
      for i := 0 to |rows|
        invariant forall h :: h in states <==> h in wanted && Find(rows[..i], log, h).Some?
        invariant forall h :: h in states ==> states[h] == rows[Find(rows[..i], log, h).value].status
      {
        assert rows[..i + 1][..i] == rows[..i];
        if rows[i].log == log && rows[i].hash in wanted {
          states := states[rows[i].hash := rows[i].status];
        }
      }
      assert rows[..|rows|] == rows;
    }

    method ClaimDeliveries(log: nat, hashes: seq<Hash>) returns (claims: seq<DeliveryClaim>)
      requires Valid()
      modifies this`rows
      ensures Valid()
      ensures rows == ClaimRows(old(rows), log, hashes)
      ensures claims == ClaimList(old(rows), log, Clean(hashes))
      ensures Claimed(old(rows), rows, claims, log, hashes)
    {
      hide Claimed;
      ClaimMeaning(rows, log, hashes);
      var wanted := CleanHashes(hashes);
      claims := [];
      for i := 0 to |rows|
        invariant |rows| == |old(rows)|
        invariant forall j :: 0 <= j < |rows| ==>
          rows[j] == if j < i && ClaimHits(old(rows)[j], log, wanted) then ClaimedRow(old(rows)[j]) else old(rows)[j]
        invariant claims == ClaimList(old(rows)[..i], log, wanted)
      {
        assert old(rows)[..i + 1][..i] == old(rows)[..i];
        if ClaimHits(rows[i], log, wanted) {
          claims := claims + [DeliveryClaim(i, rows[i].hash)];
          rows := rows[i := ClaimedRow(rows[i])];
        }
      }
      assert old(rows)[..|rows|] == old(rows);
    }

    method RecordDeliveryResults(results: seq<DeliveryResult>)
      requires Valid()
      modifies this`rows
      ensures Valid()
      ensures rows == RecordAll(old(rows), results) && Recorded(old(rows), rows, results)
    {
      hide Recorded;
      RecordMeaning(rows, results);
      for i := 0 to |results|
        invariant Valid()
        invariant rows == RecordAll(old(rows), results[..i])
      {
        assert results[..i + 1][..i] == results[..i];
        var r := results[i];
        if r.claim.id < |rows| {
          rows := rows[r.claim.id := RecordedRow(rows[r.claim.id], r.attempt)];
        }
      }
      assert results[..|results|] == results;
    }

    method GetDeliveryCounts(log: nat) returns (c: DeliveryCounts)
      ensures c == Counts(rows, log)
      ensures c.accepted == |RowsIn(rows, log, {Completed})|
      ensures c.failed == |RowsIn(rows, log, {Pending, InProgress, Failed, Unknown})|
    {
      CountsAreSizes(rows, log);
      hide RowsIn;
      var accepted, failed := 0, 0;
      for i := 0 to |rows|
        invariant accepted == Count(rows[..i], IsCompleted(log))
        invariant failed == Count(rows[..i], IsUnresolved(log))
      {
        assert rows[..i + 1][..i] == rows[..i];
        if rows[i].log == log {
          match rows[i].status
          case Completed => accepted := accepted + 1;
          case Abandoned =>
          case _ => failed := failed + 1;
        }
      }
      assert rows[..|rows|] == rows;
      c := DeliveryCounts(accepted, failed);
    }

    /** UPDATE deliveries SET status='unknown' WHERE log and in_progress. */
    method SettleClaims(log: nat)
      requires Valid()
      modifies this`rows
      ensures Valid()
      ensures rows == SettleRows(old(rows), {log}) && ClaimsLost(old(rows), rows, log)
    {
      for i := 0 to |rows|
        invariant |rows| == |old(rows)|
        invariant forall j :: 0 <= j < |rows| ==>
          rows[j] == if j < i then SettledRow(old(rows)[j], {log}) else old(rows)[j]
      {
        if rows[i].log == log && rows[i].status == InProgress {
          rows := rows[i := rows[i].(status := Unknown, code := None)];
        }
      }
    }

    method FinalizeStaleLog(log: nat, now: int) returns (c: DeliveryCounts)
      requires Valid() && log < |logs|
      modifies this`rows, this`logs
      ensures Valid()
      ensures rows == SettleRows(old(rows), {log}) && c == Counts(old(rows), log)
      ensures logs == FailLogs(old(logs), rows, {log}, now)
      ensures ClaimsLost(old(rows), rows, log) && LogFailedNow(old(logs), logs, old(rows), log, now)
      ensures logs[log].accepted == c.accepted && logs[log].failed == c.failed
    {
      FailMeaning(logs, rows, log, now);
      SettleKeepsCounts(rows, {log}, log);
      SettleClaims(log);
      c := GetDeliveryCounts(log);
      logs := logs[log := FailedLog(logs[log], c, now)];
    }

    /** Only the log of this event and type, and only if it is open and stale. */
    method ReclaimStaleLog(event: int, d: DType, cutoff: int, now: int) returns (id: Option<nat>)
      requires Valid()
      modifies this`rows, this`logs
      ensures Valid()
      ensures var f := FindLog(old(logs), event, d);
        && id == (if f.Some? && Stale(old(logs)[f.value], cutoff) then f else None)
        && rows == (if id.Some? then SettleRows(old(rows), {id.value}) else old(rows))
        && logs == (if id.Some? then FailLogs(old(logs), rows, {id.value}, now) else old(logs))
      ensures forall i: nat :: id == Some(i) <==>
        && i < |old(logs)| && old(logs)[i].event == event && old(logs)[i].dType == d
        && old(logs)[i].status in {LogPending, LogInProgress} && old(logs)[i].updatedAt < cutoff
      ensures if id.Some?
              then ClaimsLost(old(rows), rows, id.value) && LogFailedNow(old(logs), logs, old(rows), id.value, now)
              else rows == old(rows) && logs == old(logs)
    {
      id := FindLog(logs, event, d);
      if id.None? || !Stale(logs[id.value], cutoff) {
        id := None;
        return;
      }
      FailMeaning(logs, rows, id.value, now);
      logs := logs[id.value := logs[id.value].(status := LogFailed, updatedAt := now)];
      var _ := FinalizeStaleLog(id.value, now);
    }

    /** SELECT id ... WHERE open and last updated before the cutoff ORDER BY id. */
    method SelectStale(cutoff: int) returns (ids: seq<nat>)
      ensures Ascending(ids) && Distinct(ids)
      ensures SetOf(ids) == StaleLogs(logs, cutoff) && |ids| == |StaleLogs(logs, cutoff)|
      ensures forall l: nat :: l in ids <==>
        l < |logs| && logs[l].status in {LogPending, LogInProgress} && logs[l].updatedAt < cutoff
    {
      ids := [];
      for i := 0 to |logs|
        invariant ids == StaleList(logs[..i], cutoff)
      {
        assert logs[..i + 1][..i] == logs[..i];
        if Stale(logs[i], cutoff) {
          ids := ids + [i];
        }
      }
      assert logs[..|logs|] == logs;
      StaleListMeaning(logs, cutoff);
      StaleInPlainTerms(logs, cutoff);
      assert forall l: nat :: l in ids <==> l in SetOf(ids);
    }

    method ReclaimStaleLogs(cutoff: int, now: int) returns (n: nat)
      requires Valid()
      modifies this`rows, this`logs
      ensures Valid()
      ensures rows == SettleRows(old(rows), StaleLogs(old(logs), cutoff))
      ensures logs == FailLogs(old(logs), rows, StaleLogs(old(logs), cutoff), now)
      ensures n == |StaleLogs(old(logs), cutoff)|
      ensures StaleFailed(old(logs), logs, old(rows), cutoff, now)
      ensures StaleClaimsLost(old(logs), old(rows), rows, cutoff)
      ensures forall l :: 0 <= l < |logs| && logs[l].status in {LogPending, LogInProgress} ==>
        logs[l].updatedAt >= cutoff
      ensures n == |set l: nat | l < |old(logs)| && old(logs)[l].status in {LogPending, LogInProgress}
                                 && old(logs)[l].updatedAt < cutoff|
    {
      hide StaleFailed, StaleClaimsLost;
      StaleInPlainTerms(logs, cutoff);
      ReclaimMeaning(logs, rows, cutoff, now);
      hide Stale, Counts, UniqueLogs, UniqueRows;
      var ids := SelectStale(cutoff);
      ghost var picked := SetOf(ids);
      for i := 0 to |ids|
        invariant Valid() && |logs| == |old(logs)|
        invariant rows == SettleRows(old(rows), SetOf(ids[..i]))
        invariant logs == FailLogs(old(logs), old(rows), SetOf(ids[..i]), now)
      {
        assert ids[i] in picked;
        assert SetOf(ids[..i + 1]) == SetOf(ids[..i]) + {ids[i]};
        FinalizeOneMore(old(logs), old(rows), SetOf(ids[..i]), ids[i], now);
        var _ := FinalizeStaleLog(ids[i], now);
      }
      assert ids[..|ids|] == ids;
      FailLogsBySettled(old(logs), old(rows), picked, now);
      NothingStale(old(logs), logs, old(rows), cutoff, now);
      n := |ids|;
    }

    method MarkLogFailed(log: nat, fallback: nat, now: int) returns (c: DeliveryCounts)
      requires Valid()
      modifies this`rows, this`logs
      ensures Valid()
      ensures rows == SettleRows(old(rows), {log})
      ensures logs == FailWithFallback(old(logs), rows, log, fallback, now)
      ensures c == FallbackCounts(Counts(old(rows), log), fallback)
      ensures ClaimsLost(old(rows), rows, log)
      ensures var accepted, failed := |RowsIn(old(rows), log, {Completed})|,
                                      |RowsIn(old(rows), log, {Pending, InProgress, Failed, Unknown})|;
        c == DeliveryCounts(accepted, if accepted == 0 && failed == 0 then fallback else failed)
      ensures logs == if log < |old(logs)|
                      then var l := old(logs)[log];
                        old(logs)[log := Log(l.event, l.dType, LogFailed, c.accepted, c.failed, None, now)]
                      else old(logs)
    {
      CountsAreSizes(rows, log);
      hide RowsIn;
      SettleKeepsCounts(rows, {log}, log);
      SettleClaims(log);
      c := GetDeliveryCounts(log);
      if c.accepted == 0 && c.failed == 0 && fallback > 0 {
        c := DeliveryCounts(0, fallback);
      }
      if log < |logs| {
        logs := logs[log := FailedLog(logs[log], c, now)];
      }
    }

    method CreateNotificationLog(event: int, d: DType, now: int) returns (granted: Option<nat>)
      requires Valid()
      modifies this`logs
      ensures Valid()
      ensures (logs, granted) == Grant(old(logs), event, d, now)
      ensures granted.None? <==> exists i :: 0 <= i < |old(logs)| && old(logs)[i].event == event
                                             && old(logs)[i].dType == d && old(logs)[i].status != LogFailed
      ensures |old(logs)| <= |logs| && forall i :: 0 <= i < |old(logs)| && granted != Some(i) ==>
        logs[i] == old(logs)[i]
      ensures if granted.None? then logs == old(logs)
              else granted.value < |logs| && logs[granted.value] == Log(event, d, LogPending, 0, 0, None, now)
    {
      GrantMeaning(logs, event, d, now);
      var f := FindLog(logs, event, d);
      if f.None? {
        granted := Some(|logs|);
        logs := logs + [Log(event, d, LogPending, 0, 0, None, now)];
      } else if logs[f.value].status == LogFailed {
        logs := logs[f.value := GrantedLog(logs[f.value], now)];
        granted := f;
      } else {
        granted := None;
      }
    }

    method UpdateNotificationLog(log: nat, status: LogStatus, c: DeliveryCounts, now: int)
      requires Valid()
      modifies this`logs
      ensures Valid()
      ensures logs == UpdateLog(old(logs), log, status, c, now)
      ensures logs == if log < |old(logs)|
                      then var l := old(logs)[log];
                        old(logs)[log := Log(l.event, l.dType, status, c.accepted, c.failed,
                                             if status == LogCompleted then Some(now) else l.sentAt, now)]
                      else old(logs)
    {
      if log < |logs| {
        var l := logs[log];
        l := l.(status := status, accepted := c.accepted, failed := c.failed);
        if status == LogCompleted {
          l := l.(sentAt := Some(now));
        }
        logs := logs[log := l.(updatedAt := now)];
      }
    }

    method IsAlreadySent(event: int, d: DType) returns (sent: bool)
      ensures sent <==> exists i :: 0 <= i < |logs| && SentAlready(logs[i], event, d)
      ensures sent <==> exists i :: 0 <= i < |logs| && logs[i].event == event && logs[i].dType == d
                                    && logs[i].status in {LogCompleted, LogInProgress}
    {
      for i := 0 to |logs|
        invariant forall j :: 0 <= j < i ==> !SentAlready(logs[j], event, d)
      {
        if SentAlready(logs[i], event, d) {
          return true;
        }
      }
      sent := false;
    }
  }
}
