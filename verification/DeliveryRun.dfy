/** What one uninterrupted worker does to a list of endpoints: claim, call and record, endpoint by
    endpoint, and what the rows, the totals and the provider's answers have to do with each other. */
module DeliveryRun {
  import opened Prelude
  import opened DeliveryRows
  import opened PushRetry
  import opened ScheduledStore

  /** Rows, the place in the provider's stream, the running totals, the lists a chunk collects, and the
      calls made. */
  datatype RunState = RunState(
    rows: seq<Row>, pos: nat, accepted: nat, failed: nat, items: seq<SendItem>, expired: seq<Hash>, calls: seq<Sent>)

  function Start(rows: seq<Row>, pos: nat): RunState { RunState(rows, pos, 0, 0, [], [], []) }

  function CallsFor(sub: Sub, stream: Stream, pos: nat, maxRetries: int): nat {
    if sub.readable then RetryCalls(stream, pos, maxRetries) else 0
  }

  function AttemptFor(sub: Sub, stream: Stream, pos: nat, maxRetries: int): Attempt {
    if sub.readable then RetryAttempt(stream, pos, maxRetries) else NOT_SENT
  }

  predicate Gone(a: Attempt) { !a.ok && a.code.Some? && (a.code.value == 404 || a.code.value == 410) }

  /** The row this endpoint would claim or skip. */
  function RowFor(rows: seq<Row>, log: nat, sub: Sub): (r: Option<nat>)
    ensures r.Some? ==> r.value < |rows| && Matches(rows[r.value], log, sub.hash) && sub.hash != ""
  {
    if sub.hash == "" then None else Find(rows, log, sub.hash)
  }

  /** The rows after claiming row i and recording what the calls gave. */
  function Delivered(rows: seq<Row>, i: nat, a: Attempt): seq<Row>
    requires i < |rows|
  {
    rows[i := RecordedRow(ClaimedRow(rows[i]), a)]
  }

  function RunSub(r: RunState, log: nat, sub: Sub, stream: Stream, maxRetries: int): RunState {
    var f := RowFor(r.rows, log, sub);
    if f.None? then r
    else if r.rows[f.value].status == Unknown then
      r.(failed := r.failed + 1, items := r.items + [SendItem(sub.hash, false, None)])
    else if !Claimable(r.rows[f.value].status) then r
    else
      var a := AttemptFor(sub, stream, r.pos, maxRetries);
      RunState(
        Delivered(r.rows, f.value, a),
        r.pos + CallsFor(sub, stream, r.pos, maxRetries),
        r.accepted + (if a.ok then 1 else 0),
        r.failed + (if a.ok then 0 else 1),
        r.items + [SendItem(sub.hash, a.ok, a.code)],
        r.expired + (if sub.readable && Gone(a) then [sub.hash] else []),
        r.calls + SentCalls(sub.hash, stream, r.pos, CallsFor(sub, stream, r.pos, maxRetries)))
  }

  function RunSubs(r: RunState, log: nat, subs: seq<Sub>, stream: Stream, maxRetries: int): RunState {
    if |subs| == 0 then r
    else RunSub(RunSubs(r, log, subs[..|subs| - 1], stream, maxRetries), log, subs[|subs| - 1], stream, maxRetries)
  }

  lemma RunNone(r: RunState, log: nat, subs: seq<Sub>, stream: Stream, maxRetries: int)
    ensures RunSubs(r, log, subs[..0], stream, maxRetries) == r
  {
  }

  lemma RunOneMore(r: RunState, log: nat, subs: seq<Sub>, i: nat, stream: Stream, maxRetries: int)
    requires i < |subs|
    ensures RunSubs(r, log, subs[..i + 1], stream, maxRetries)
         == RunSub(RunSubs(r, log, subs[..i], stream, maxRetries), log, subs[i], stream, maxRetries)
  {
    assert subs[..i + 1][..i] == subs[..i];
  }

  function Plus(r: RunState, c: RunState): RunState {
    RunState(c.rows, c.pos, r.accepted + c.accepted, r.failed + c.failed,
             r.items + c.items, r.expired + c.expired, r.calls + c.calls)
  }

  /** Batching does not matter: running two chunks one after the other is running their
      concatenation, and the totals add up. */
  lemma {:induction false} RunConcat(r: RunState, log: nat, a: seq<Sub>, b: seq<Sub>, stream: Stream, maxRetries: int)
    ensures var ra := RunSubs(r, log, a, stream, maxRetries);
      RunSubs(r, log, a + b, stream, maxRetries)
      == Plus(ra, RunSubs(Start(ra.rows, ra.pos), log, b, stream, maxRetries))
  {
    hide RunSub;
    var ra := RunSubs(r, log, a, stream, maxRetries);
    if |b| == 0 {
      assert a + b == a;
      assert ra.items + [] == ra.items && ra.expired + [] == ra.expired && ra.calls + [] == ra.calls;
    } else {
      var n := |b| - 1;
      RunConcat(r, log, a, b[..n], stream, maxRetries);
      assert (a + b)[..|a + b| - 1] == a + b[..n];
      var rb := RunSubs(Start(ra.rows, ra.pos), log, b[..n], stream, maxRetries);
      RunSubShift(ra, rb, log, b[n], stream, maxRetries);
    }
  }

  lemma RunChunk(r: RunState, log: nat, subs: seq<Sub>, i: nat, j: nat, stream: Stream, maxRetries: int)
    requires i <= j <= |subs|
    ensures var ri := RunSubs(r, log, subs[..i], stream, maxRetries);
      RunSubs(r, log, subs[..j], stream, maxRetries)
      == Plus(ri, RunSubs(Start(ri.rows, ri.pos), log, subs[i..j], stream, maxRetries))
  {
    hide RunSubs;
    RunConcat(r, log, subs[..i], subs[i..j], stream, maxRetries);
    SliceJoin(subs, i, j);
  }

  lemma RunSubShift(r: RunState, c: RunState, log: nat, sub: Sub, stream: Stream, maxRetries: int)
    ensures RunSub(Plus(r, c), log, sub, stream, maxRetries) == Plus(r, RunSub(c, log, sub, stream, maxRetries))
  {
    var t := RunSub(c, log, sub, stream, maxRetries);
    assert t.items == c.items + t.items[|c.items|..] && t.expired == c.expired + t.expired[|c.expired|..];
    assert t.calls == c.calls + t.calls[|c.calls|..];
    Assoc(r.items, c.items, t.items[|c.items|..]);
    Assoc(r.expired, c.expired, t.expired[|c.expired|..]);
    Assoc(r.calls, c.calls, t.calls[|c.calls|..]);
  }

  // ---- what a run does to the rows ----

  /** A row of this log whose endpoint is among the listed ones. */
  predicate Listed(r: Row, log: nat, hashes: seq<Hash>) {
    r.log == log && r.hash in hashes && r.hash != ""
  }

  function IsTroubled(log: nat, hashes: seq<Hash>): Row -> bool {
    (r: Row) => Listed(r, log, hashes) && (r.status == Failed || r.status == Unknown)
  }

  function IsEligible(log: nat, hashes: seq<Hash>): Row -> bool {
    (r: Row) => Listed(r, log, hashes) && (r.status == Pending || r.status == Failed)
  }

  function IsAccepted(): SendItem -> bool { (i: SendItem) => i.ok }

  function Budget(maxRetries: int): nat { if maxRetries < 0 then 0 else maxRetries + 1 }

  lemma CallsWithinBudget(sub: Sub, stream: Stream, pos: nat, maxRetries: int)
    ensures CallsFor(sub, stream, pos, maxRetries) <= Budget(maxRetries)
  {
  }

  ghost predicate RowsAfterRun(before: seq<Row>, after: seq<Row>, log: nat, hashes: seq<Hash>) {
    && |after| == |before|
    && forall i :: 0 <= i < |before| ==>
         if Listed(before[i], log, hashes) && before[i].status in {Pending, Failed} then
           && after[i].log == before[i].log && after[i].hash == before[i].hash
           && after[i].attempts == before[i].attempts + 1
           && after[i].status in {Completed, Failed, Unknown}
         else after[i] == before[i]
  }

  /** The accounting that every prefix of the run keeps. */
  ghost predicate Accounted(before: seq<Row>, pos: nat, r: RunState, log: nat, hashes: seq<Hash>, maxRetries: int) {
    && RowsAfterRun(before, r.rows, log, hashes)
    && Count(r.rows, IsCompleted(log)) == Count(before, IsCompleted(log)) + r.accepted
    && r.failed == Count(r.rows, IsTroubled(log, hashes))
    && pos <= r.pos
    && r.pos - pos <= Budget(maxRetries) * Count(before, IsEligible(log, hashes))
    && |r.items| == r.accepted + r.failed
    && Count(r.items, IsAccepted()) == r.accepted
  }

  lemma AccountedRows(before: seq<Row>, pos: nat, r: RunState, log: nat, hashes: seq<Hash>, maxRetries: int)
    requires Accounted(before, pos, r, log, hashes, maxRetries)
    ensures RowsAfterRun(before, r.rows, log, hashes)
  {
  }

  lemma AccountedItem(items: seq<SendItem>, item: SendItem)
    ensures Count(items + [item], IsAccepted()) == Count(items, IsAccepted()) + (if item.ok then 1 else 0)
  {
    CountAppend(items, item, IsAccepted());
  }

  /** One more endpoint, when no row belongs to it. */
  lemma AccountedNoRow(before: seq<Row>, pos: nat, r: RunState, log: nat, hashes: seq<Hash>, h: Hash, maxRetries: int)
    requires Accounted(before, pos, r, log, hashes, maxRetries)
    requires forall i :: 0 <= i < |before| ==> !(Matches(before[i], log, h) && h != "")
    ensures Accounted(before, pos, r, log, hashes + [h], maxRetries)
  {
    CountPointwise(r.rows, r.rows, IsTroubled(log, hashes), IsTroubled(log, hashes + [h]));
    CountPointwise(before, before, IsEligible(log, hashes), IsEligible(log, hashes + [h]));
  }

  /** One more endpoint whose row is i and is not claimed: an unknown row counts as failed. */
  lemma AccountedSkip(before: seq<Row>, pos: nat, r: RunState, t: RunState, log: nat, hashes: seq<Hash>, i: nat,
      maxRetries: int)
    requires UniqueRows(before) && Accounted(before, pos, r, log, hashes, maxRetries)
    requires i < |before| && before[i].log == log && before[i].hash !in hashes && before[i].hash != ""
    requires !Claimable(before[i].status)
    requires t.rows == r.rows && t.pos == r.pos && t.accepted == r.accepted
    requires if before[i].status == Unknown
             then t.failed == r.failed + 1 && t.items == r.items + [SendItem(before[i].hash, false, None)]
             else t.failed == r.failed && t.items == r.items
    ensures Accounted(before, pos, t, log, hashes + [before[i].hash], maxRetries)
  {
    var more := hashes + [before[i].hash];
    CountDiffer(r.rows, r.rows, IsTroubled(log, hashes), IsTroubled(log, more), i);
    CountPointwise(before, before, IsEligible(log, hashes), IsEligible(log, more));
    AccountedItem(r.items, SendItem(before[i].hash, false, None));
  }

  /** One more endpoint whose row is i and is claimed, called and recorded. */
  lemma AccountedDelivery(
    before: seq<Row>, pos: nat, r: RunState, t: RunState, log: nat, hashes: seq<Hash>, i: nat, a: Attempt,
    maxRetries: int)
    requires UniqueRows(before) && Accounted(before, pos, r, log, hashes, maxRetries)
    requires i < |before| && before[i].log == log && before[i].hash !in hashes && before[i].hash != ""
    requires Claimable(before[i].status) && !(a.ok && a.uncertain)
    requires t.rows == Delivered(r.rows, i, a) && r.pos <= t.pos <= r.pos + Budget(maxRetries)
    requires t.accepted == r.accepted + (if a.ok then 1 else 0) && t.failed == r.failed + (if a.ok then 0 else 1)
    requires t.items == r.items + [SendItem(before[i].hash, a.ok, a.code)]
    ensures Accounted(before, pos, t, log, hashes + [before[i].hash], maxRetries)
  {
    hide Count;
    var more := hashes + [before[i].hash];
    assert r.rows[i] == before[i];
    CountDiffer(r.rows, t.rows, IsCompleted(log), IsCompleted(log), i);
    CountDiffer(r.rows, t.rows, IsTroubled(log, hashes), IsTroubled(log, more), i);
    CountDiffer(before, before, IsEligible(log, hashes), IsEligible(log, more), i);
    AccountedItem(r.items, SendItem(before[i].hash, a.ok, a.code));
    var n := Count(before, IsEligible(log, hashes));
    assert Budget(maxRetries) * (n + 1) == Budget(maxRetries) * n + Budget(maxRetries);
  }

  lemma VerdictIsClear(sub: Sub, stream: Stream, pos: nat, maxRetries: int)
    ensures var a := AttemptFor(sub, stream, pos, maxRetries); !(a.ok && a.uncertain)
  {
  }

  lemma {:induction false} FindStable(before: seq<Row>, after: seq<Row>, log: nat, hash: Hash)
    requires |before| == |after|
    requires forall i :: 0 <= i < |before| ==> after[i].log == before[i].log && after[i].hash == before[i].hash
    ensures Find(after, log, hash) == Find(before, log, hash)
  {
    if |before| > 0 {
      FindStable(before[..|before| - 1], after[..|after| - 1], log, hash);
    }
  }

  /** One more subscriber of the list keeps the accounting. */
  lemma AccountedSub(before: seq<Row>, pos: nat, r: RunState, log: nat, hashes: seq<Hash>, sub: Sub, stream: Stream,
      maxRetries: int)
    requires UniqueRows(before) && Accounted(before, pos, r, log, hashes, maxRetries)
    requires sub.hash !in hashes
    ensures Accounted(before, pos, RunSub(r, log, sub, stream, maxRetries), log, hashes + [sub.hash], maxRetries)
  {
    AccountedRows(before, pos, r, log, hashes, maxRetries);
    hide Count, Accounted;
    var t := RunSub(r, log, sub, stream, maxRetries);
    FindStable(before, r.rows, log, sub.hash);
    var f := RowFor(r.rows, log, sub);
    if f.None? {
      AccountedNoRow(before, pos, r, log, hashes, sub.hash, maxRetries);
    } else if Claimable(before[f.value].status) {
      VerdictIsClear(sub, stream, r.pos, maxRetries);
      CallsWithinBudget(sub, stream, r.pos, maxRetries);
      var a := AttemptFor(sub, stream, r.pos, maxRetries);
      AccountedDelivery(before, pos, r, t, log, hashes, f.value, a, maxRetries);
    } else {
      AccountedSkip(before, pos, r, t, log, hashes, f.value, maxRetries);
    }
  }

  /** The accounting over the whole list of subscribers, whose hashes are distinct. */
  lemma {:induction false} RunAccounted(
    before: seq<Row>, pos: nat, log: nat, subs: seq<Sub>, stream: Stream, maxRetries: int)
    requires UniqueRows(before) && Distinct(Hashes(subs))
    ensures var r := RunSubs(Start(before, pos), log, subs, stream, maxRetries);
      Accounted(before, pos, r, log, Hashes(subs), maxRetries)
  {
    if |subs| == 0 {
      CountZero(before, IsTroubled(log, Hashes(subs)));
    } else {
      hide Count, Accounted, RunSub;
      var n := |subs| - 1;
      var hashes := Hashes(subs);
      assert Hashes(subs[..n]) == hashes[..n] && hashes == hashes[..n] + [subs[n].hash];
      assert forall i :: 0 <= i < n ==> hashes[i] != hashes[n];
      RunAccounted(before, pos, log, subs[..n], stream, maxRetries);
      var r := RunSubs(Start(before, pos), log, subs[..n], stream, maxRetries);
      AccountedSub(before, pos, r, log, Hashes(subs[..n]), subs[n], stream, maxRetries);
    }
  }

  // ---- the main results about one run ----

  function IsUnknownOutside(log: nat, hashes: seq<Hash>): Row -> bool {
    (r: Row) => r.log == log && r.status == Unknown && !Listed(r, log, hashes)
  }

  function IsClaimed(log: nat): Row -> bool { (r: Row) => r.log == log && r.status == InProgress }

  function IsOutside(log: nat, hashes: seq<Hash>): Row -> bool {
    (r: Row) => r.log == log && (r.status == InProgress || (r.status == Unknown && !Listed(r, log, hashes)))
  }

  /** send_batch_notifications on the rows: prepare, then every endpoint. */
  function FullRun(rows: seq<Row>, pos: nat, log: nat, subs: seq<Sub>, stream: Stream, maxRetries: int): RunState {
    RunSubs(Start(EnsureRows(rows, log, Hashes(subs)), pos), log, subs, stream, maxRetries)
  }

  /** Preparing neither completes nor loses a row: the completed rows are the old ones, and
      the only retryable rows left are the subscribers'. */
  lemma PreparedRows(rows: seq<Row>, log: nat, hashes: seq<Hash>)
    requires UniqueRows(rows)
    ensures var ready := EnsureRows(rows, log, hashes);
      && UniqueRows(ready)
      && Count(ready, IsCompleted(log)) == Count(rows, IsCompleted(log))
      && Count(ready, IsClaimed(log)) == Count(rows, IsClaimed(log))
      && Count(ready, IsUnknownOutside(log, hashes)) == Count(rows, IsUnknownOutside(log, hashes))
      && (forall i :: 0 <= i < |ready| && ready[i].log == log && ready[i].status in {Pending, Failed} ==>
        Listed(ready[i], log, hashes))
  {
    EnsureKeepsCount(rows, log, hashes, IsCompleted(log));
    EnsureKeepsCount(rows, log, hashes, IsClaimed(log));
    EnsureKeepsCount(rows, log, hashes, IsUnknownOutside(log, hashes));
    EnsureMeaning(rows, log, hashes);
    NewRowsListed(rows, log, hashes);
    hide Count, EnsureRows;
  }

  lemma NewRowsListed(rows: seq<Row>, log: nat, hashes: seq<Hash>)
    requires UniqueRows(rows)
    ensures forall i :: |rows| <= i < |EnsureRows(rows, log, hashes)| ==> EnsureRows(rows, log, hashes)[i].hash != ""
  {
    CleanMeaning(hashes);
    var kept := AbandonRows(rows, log, Clean(hashes));
    assert forall i :: 0 <= i < |rows| ==> kept[i].log == rows[i].log && kept[i].hash == rows[i].hash;
    InsertMeaning(kept, log, Clean(hashes));
  }

  /** Run accounting. What the database reports after the run is what the chunks reported:
      accepted grows by the sum of the chunks' accepted, and failed is the sum of their
      failed plus the unknown rows of endpoints outside the list plus any claim the run
      found open; the log is free of failures exactly when every row is completed or
      abandoned. */
  lemma RunAccounting(rows: seq<Row>, pos: nat, log: nat, subs: seq<Sub>, stream: Stream, maxRetries: int)
    requires UniqueRows(rows) && Distinct(Hashes(subs))
    ensures var r := FullRun(rows, pos, log, subs, stream, maxRetries);
      var c := Counts(r.rows, log);
      && c.accepted == Count(rows, IsCompleted(log)) + r.accepted
      && c.failed == r.failed + Count(rows, IsUnknownOutside(log, Hashes(subs))) + Count(rows, IsClaimed(log))
      && c.accepted + c.failed + Count(r.rows, IsAbandoned(log)) == Count(r.rows, OfLog(log))
      && |r.items| == r.accepted + r.failed && Count(r.items, IsAccepted()) == r.accepted
  {
    var hashes := Hashes(subs);
    var ready := EnsureRows(rows, log, hashes);
    PreparedRows(rows, log, hashes);
    RunAccounted(ready, pos, log, subs, stream, maxRetries);
    hide Count, EnsureRows, RunSubs, Listed;
    var r := FullRun(rows, pos, log, subs, stream, maxRetries);
    UnresolvedAfterRun(ready, r.rows, log, hashes);
    CountsAccountForAll(r.rows, log);
  }

  /** After a run an unresolved row is a failed or unknown one of the list, an unknown one
      outside it, or a claim the run found open. */
  lemma UnresolvedAfterRun(ready: seq<Row>, after: seq<Row>, log: nat, hashes: seq<Hash>)
    requires RowsAfterRun(ready, after, log, hashes)
    requires forall i :: 0 <= i < |ready| && ready[i].log == log && Claimable(ready[i].status) ==>
      Listed(ready[i], log, hashes)
    ensures Count(after, IsUnresolved(log)) == Count(after, IsTroubled(log, hashes))
      + Count(ready, IsUnknownOutside(log, hashes)) + Count(ready, IsClaimed(log))
  {
    hide Count;
    var outside := IsOutside(log, hashes);
    CountSplit(after, IsUnresolved(log), IsTroubled(log, hashes), outside);
    CountSplit(after, outside, IsUnknownOutside(log, hashes), IsClaimed(log));
    CountPointwise(ready, after, IsUnknownOutside(log, hashes), IsUnknownOutside(log, hashes));
    CountPointwise(ready, after, IsClaimed(log), IsClaimed(log));
  }

  /** The calls are the stream's answers from pos on, in order, each to one of these endpoints. */
  ghost predicate CallsInOrder(calls: seq<Sent>, stream: Stream, pos: nat, hashes: seq<Hash>) {
    forall k :: 0 <= k < |calls| ==> calls[k].hash in hashes && calls[k].outcome == stream(pos + k)
  }

  lemma MoreCallsInOrder(calls: seq<Sent>, stream: Stream, pos: nat, hashes: seq<Hash>, hash: Hash, n: nat)
    requires CallsInOrder(calls, stream, pos, hashes)
    ensures CallsInOrder(calls + SentCalls(hash, stream, pos + |calls|, n), stream, pos, hashes + [hash])
  {
  }

  /** A run's calls are its share of the provider's stream, in order, each to a listed endpoint. */
  lemma {:induction false} RunCalls(rows: seq<Row>, pos: nat, log: nat, subs: seq<Sub>, stream: Stream, maxRetries: int)
    ensures var r := RunSubs(Start(rows, pos), log, subs, stream, maxRetries);
      r.pos == pos + |r.calls| && CallsInOrder(r.calls, stream, pos, Hashes(subs))
  {
    if |subs| > 0 {
      hide RunSub, CallsInOrder, SentCalls, Hashes;
      var n := |subs| - 1;
      RunCalls(rows, pos, log, subs[..n], stream, maxRetries);
      LastHash(subs);
      var r := RunSubs(Start(rows, pos), log, subs[..n], stream, maxRetries);
      var calls := SubCalls(r, log, subs[n], stream, maxRetries);
      MoreCallsInOrder(r.calls, stream, pos, Hashes(subs[..n]), subs[n].hash, calls);
      SentLength(subs[n].hash, stream, r.pos, calls);
    }
  }

  lemma LastHash(subs: seq<Sub>)
    requires |subs| > 0
    ensures Hashes(subs) == Hashes(subs[..|subs| - 1]) + [subs[|subs| - 1].hash]
  {
  }

  /** How many calls one endpoint of a run costs. */
  lemma SubCalls(r: RunState, log: nat, sub: Sub, stream: Stream, maxRetries: int) returns (n: nat)
    ensures var t := RunSub(r, log, sub, stream, maxRetries);
      t.calls == r.calls + SentCalls(sub.hash, stream, r.pos, n) && t.pos == r.pos + n
  {
    hide CallsFor, AttemptFor, Delivered, SentCalls;
    NothingSent(r.calls, sub.hash, stream, r.pos);
    var f := RowFor(r.rows, log, sub);
    n := if f.Some? && Claimable(r.rows[f.value].status) then CallsFor(sub, stream, r.pos, maxRetries) else 0;
  }

  lemma SentLength(hash: Hash, stream: Stream, pos: nat, n: nat)
    ensures |SentCalls(hash, stream, pos, n)| == n
  {
  }

  /** Retrigger quiescence: a run makes at most maxRetries+1 calls per retryable row of its
      subscribers, all of them to listed endpoints; with none it makes no call and leaves the prepared
      rows alone. */
  lemma RetriggerQuiescence(rows: seq<Row>, pos: nat, log: nat, subs: seq<Sub>, stream: Stream, maxRetries: int)
    requires UniqueRows(rows) && Distinct(Hashes(subs))
    ensures var ready := EnsureRows(rows, log, Hashes(subs));
      var r := FullRun(rows, pos, log, subs, stream, maxRetries);
      var eligible := Count(ready, IsEligible(log, Hashes(subs)));
      && r.pos == pos + |r.calls| && |r.calls| <= Budget(maxRetries) * eligible
      && CallsInOrder(r.calls, stream, pos, Hashes(subs))
      && RowsAfterRun(ready, r.rows, log, Hashes(subs))
      && (eligible == 0 ==> r.calls == [] && r.rows == ready)
  {
    var ready := EnsureRows(rows, log, Hashes(subs));
    PreparedRows(rows, log, Hashes(subs));
    RunAccounted(ready, pos, log, subs, stream, maxRetries);
    RunCalls(ready, pos, log, subs, stream, maxRetries);
    CountZero(ready, IsEligible(log, Hashes(subs)));
  }

  /** Rerunning a log whose subscribers are all settled makes no call and changes no row, except
      that a retryable row of an endpoint no longer listed is abandoned. */
  lemma RerunOfSettledLog(rows: seq<Row>, pos: nat, log: nat, subs: seq<Sub>, stream: Stream, maxRetries: int)
    requires UniqueRows(rows) && Distinct(Hashes(subs))
    requires forall h :: h in Hashes(subs) && h != "" ==>
      Find(rows, log, h).Some? && rows[Find(rows, log, h).value].status !in {Pending, Failed}
    ensures var r := FullRun(rows, pos, log, subs, stream, maxRetries);
      && r.calls == [] && |r.rows| == |rows|
      && forall i :: 0 <= i < |rows| ==>
           r.rows[i] == if rows[i].log == log && rows[i].status in {Pending, Failed}
                        then rows[i].(status := Abandoned) else rows[i]
  {
    var hashes := Hashes(subs);
    CleanMeaning(hashes);
    var kept := AbandonRows(rows, log, Clean(hashes));
    forall i | 0 <= i < |rows| && rows[i].log == log && Claimable(rows[i].status)
      ensures rows[i].hash !in Clean(hashes)
    {
      assert Matches(rows[i], log, rows[i].hash);
    }
    forall h | h in Clean(hashes)
      ensures Find(kept, log, h).Some?
    {
      FindStable(rows, kept, log, h);
    }
    InsertNothing(kept, log, Clean(hashes));
    CountZero(kept, IsEligible(log, hashes));
    RetriggerQuiescence(rows, pos, log, subs, stream, maxRetries);
  }
}
