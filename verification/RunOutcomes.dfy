/** What a run concludes from the provider's answers: which endpoints are called again, which lose
    their subscription, and what becomes of their rows. Nothing here looks at how the run decides. */
module RunOutcomes {
  import opened Prelude
  import opened DeliveryRows
  import opened PushRetry
  import opened ScheduledStore
  import opened DeliveryRun

  // ---- one endpoint ----

  /** These are the calls to one endpoint: at most maxRetries + 1, none after one that was accepted, got
      no answer or was refused for good, and no gap before. */
  ghost predicate OneEndpoint(calls: seq<Sent>, hash: Hash, maxRetries: int) {
    && (calls == [] || |calls| <= maxRetries + 1)
    && forall k :: 0 <= k < |calls| ==>
         && calls[k].hash == hash
         && if Final(calls[k].outcome) then k == |calls| - 1 else k < |calls| - 1 || k == maxRetries
  }

  /** No other call follows: accepted, no answer, or refused with 400, 404 or 410. */
  predicate Final(o: Outcome) { o.ok || o.status.None? || o.status.value in {400, 404, 410} }

  /** The provider no longer knows the endpoint. */
  predicate Forgotten(o: Outcome) { !o.ok && o.status.Some? && o.status.value in {404, 410} }

  /** What the row says once these were the calls to its endpoint. */
  function RowAfter(r: Row, calls: seq<Sent>): Row {
    if calls == [] then Row(r.log, r.hash, Failed, None, r.attempts + 1)
    else
      var o := calls[|calls| - 1].outcome;
      Row(r.log, r.hash, if o.ok then Completed else if o.status.None? then Unknown else Failed,
          o.status, r.attempts + 1)
  }

  /** What a worker does with one endpoint, by the row it finds. */
  ghost predicate SubDone(r: RunState, t: RunState, log: nat, sub: Sub, maxRetries: int) {
    var f := if sub.hash == "" then None else Find(r.rows, log, sub.hash);
    if f.None? || r.rows[f.value].status in {InProgress, Completed, Abandoned} then t == r
    else if r.rows[f.value].status == Unknown then
      t == r.(failed := r.failed + 1, items := r.items + [SendItem(sub.hash, false, None)])
    else exists calls ::
      && OneEndpoint(calls, sub.hash, maxRetries)
      && (calls == [] <==> !sub.readable || maxRetries < 0)
      && t == AfterCalls(r, f.value, sub.hash, calls)
  }

  function AfterCalls(r: RunState, i: nat, hash: Hash, calls: seq<Sent>): RunState
    requires i < |r.rows|
  {
    var row := RowAfter(r.rows[i], calls);
    RunState(
      r.rows[i := row],
      r.pos + |calls|,
      r.accepted + (if row.status == Completed then 1 else 0),
      r.failed + (if row.status == Completed then 0 else 1),
      r.items + [SendItem(hash, row.status == Completed, row.code)],
      r.expired + (if calls != [] && Forgotten(calls[|calls| - 1].outcome) then [hash] else []),
      r.calls + calls)
  }

  /** The retry loop's calls and its verdict, for whatever row was claimed. */
  lemma SubCallsMeaning(sub: Sub, stream: Stream, pos: nat, maxRetries: int, r: Row)
    ensures var n := CallsFor(sub, stream, pos, maxRetries);
      var calls, a := SentCalls(sub.hash, stream, pos, n), AttemptFor(sub, stream, pos, maxRetries);
      && |calls| == n && (n == 0 <==> !sub.readable || maxRetries < 0)
      && OneEndpoint(calls, sub.hash, maxRetries)
      && RecordedRow(ClaimedRow(r), a) == RowAfter(r, calls)
      && (a.ok <==> RowAfter(r, calls).status == Completed) && a.code == RowAfter(r, calls).code
      && (sub.readable && Gone(a) <==> calls != [] && Forgotten(calls[|calls| - 1].outcome))
  {
    RetryDecides(stream, pos, maxRetries);
    hide CallsFrom, AnswersDecide;
    var n := CallsFor(sub, stream, pos, maxRetries);
    if n > 0 {
      LoopIsOneEndpoint(sub.hash, stream, pos, n, maxRetries);
      assert SentCalls(sub.hash, stream, pos, n)[n - 1].outcome == stream(pos + n - 1);
    }
  }

  lemma LoopIsOneEndpoint(hash: Hash, stream: Stream, pos: nat, n: nat, maxRetries: int)
    requires n <= maxRetries + 1 && AnswersDecide(stream, pos, pos + n, maxRetries)
    ensures OneEndpoint(SentCalls(hash, stream, pos, n), hash, maxRetries)
  {
    var calls := SentCalls(hash, stream, pos, n);
    forall k | 0 <= k < n
      ensures if Final(calls[k].outcome) then k == n - 1 else k < n - 1 || k == maxRetries
    {
      var j := pos + k;
      assert calls[k].outcome == stream(j);
    }
  }

  lemma SubMeaning(r: RunState, log: nat, sub: Sub, stream: Stream, maxRetries: int)
    ensures SubDone(r, RunSub(r, log, sub, stream, maxRetries), log, sub, maxRetries)
  {
    hide Find, CallsFor, AttemptFor, OneEndpoint, RowAfter, SentCalls, RecordedRow, ClaimedRow, Gone, Forgotten;
    var f := RowFor(r.rows, log, sub);
    if f.Some? && Claimable(r.rows[f.value].status) {
      SubCallsMeaning(sub, stream, r.pos, maxRetries, r.rows[f.value]);
      var calls := SentCalls(sub.hash, stream, r.pos, CallsFor(sub, stream, r.pos, maxRetries));
      assert RunSub(r, log, sub, stream, maxRetries) == AfterCalls(r, f.value, sub.hash, calls);
    }
  }

  // ---- a whole list of endpoints ----

  /** The calls of a run: one endpoint after the other, at most maxRetries + 1 calls each, none after a final
      answer, and another one after every other answer unless it was the last that is allowed. */
  ghost predicate Grouped(calls: seq<Sent>, maxRetries: int) {
    && (forall j, k :: 0 <= j < k < |calls| && calls[j].hash == calls[k].hash ==>
          k - j <= maxRetries && !Final(calls[j].outcome))
    && (forall k :: 0 <= k < |calls| && !Final(calls[k].outcome) ==> Continued(calls, k, maxRetries))
  }

  ghost predicate Continued(calls: seq<Sent>, k: nat, maxRetries: int)
    requires k < |calls|
  {
    || (k + 1 < |calls| && calls[k + 1].hash == calls[k].hash)
    || (0 <= maxRetries <= k && calls[k - maxRetries].hash == calls[k].hash)
  }

  /** The endpoints that were refused with 404 or 410. */
  function ForgottenIn(calls: seq<Sent>): set<Hash> {
    set k | 0 <= k < |calls| && Forgotten(calls[k].outcome) :: calls[k].hash
  }

  function OkCall(): Sent -> bool { (c: Sent) => c.outcome.ok }

  ghost predicate WasCalled(calls: seq<Sent>, hash: Hash) { exists k :: 0 <= k < |calls| && calls[k].hash == hash }

  /** The row is completed iff a call to its endpoint was accepted, unknown iff one got no answer, and
      failed otherwise. */
  ghost predicate RowTells(r: Row, calls: seq<Sent>) {
    && (r.status == Completed <==> exists k :: 0 <= k < |calls| && calls[k].hash == r.hash && calls[k].outcome.ok)
    && (r.status == Unknown <==>
          exists k :: 0 <= k < |calls| && calls[k].hash == r.hash && calls[k].outcome == Outcome(false, None))
    && r.status in {Completed, Unknown, Failed}
  }

  /** Which rows a run changes and what they say afterwards. */
  ghost predicate RowsTell(before: seq<Row>, after: seq<Row>, calls: seq<Sent>, log: nat, hashes: seq<Hash>) {
    && |after| == |before|
    && forall i :: 0 <= i < |before| ==>
         var r := before[i];
         if r.log == log && r.hash in hashes && r.hash != "" && r.status in {Pending, Failed} then
           && after[i] == Row(log, r.hash, after[i].status, after[i].code, r.attempts + 1)
           && RowTells(after[i], calls)
         else after[i] == r
  }

  /** Exactly the endpoints with a pending or failed row are called, if their fields decrypt. */
  ghost predicate CallsWhom(before: seq<Row>, calls: seq<Sent>, log: nat, subs: seq<Sub>, maxRetries: int) {
    forall h :: WasCalled(calls, h) <==>
      && maxRetries >= 0
      && Sub(h, true) in subs && h != ""
      && exists i :: 0 <= i < |before| && Matches(before[i], log, h) && before[i].status in {Pending, Failed}
  }

  lemma GroupedAppend(a: seq<Sent>, b: seq<Sent>, h: Hash, maxRetries: int)
    requires Grouped(a, maxRetries) && OneEndpoint(b, h, maxRetries) && !WasCalled(a, h)
    ensures Grouped(a + b, maxRetries)
  {
    hide Final;
    var c := a + b;
    forall j, k | 0 <= j < k < |c| && c[j].hash == c[k].hash
      ensures k - j <= maxRetries && !Final(c[j].outcome)
    {
      assert k >= |a| ==> j >= |a|;
    }
    forall k | 0 <= k < |c| && !Final(c[k].outcome)
      ensures Continued(c, k, maxRetries)
    {
      if k < |a| {
        assert Continued(a, k, maxRetries);
      } else {
        assert c[k] == b[k - |a|] && c[|a|] == b[0];
        assert k + 1 < |c| ==> c[k + 1] == b[k + 1 - |a|];
      }
    }
  }

  lemma ForgottenAppend(a: seq<Sent>, b: seq<Sent>, h: Hash, maxRetries: int)
    requires OneEndpoint(b, h, maxRetries)
    ensures ForgottenIn(a + b)
         == ForgottenIn(a) + (if b != [] && Forgotten(b[|b| - 1].outcome) then {h} else {})
  {
    assert forall k :: 0 <= k < |b| && Forgotten(b[k].outcome) ==> k == |b| - 1;
    hide Forgotten, Final;
    var c := a + b;
    forall x
      ensures x in ForgottenIn(c) <==> x in ForgottenIn(a) || (x == h && b != [] && Forgotten(b[|b| - 1].outcome))
    {
      if x in ForgottenIn(a) {
        var k :| 0 <= k < |a| && Forgotten(a[k].outcome) && a[k].hash == x;
        assert c[k] == a[k];
      }
      if x == h && b != [] && Forgotten(b[|b| - 1].outcome) {
        assert c[|c| - 1] == b[|b| - 1];
      }
    }
  }

  lemma OkAppend(a: seq<Sent>, b: seq<Sent>, h: Hash, maxRetries: int, r: Row)
    requires OneEndpoint(b, h, maxRetries)
    ensures Count(a + b, OkCall()) == Count(a, OkCall()) + (if RowAfter(r, b).status == Completed then 1 else 0)
  {
    CountConcat(a, b, OkCall());
    if b != [] {
      var n := |b| - 1;
      CountZero(b[..n], OkCall());
    }
  }

  lemma RowTellsAfter(a: seq<Sent>, b: seq<Sent>, r: Row, maxRetries: int)
    requires OneEndpoint(b, r.hash, maxRetries) && !WasCalled(a, r.hash)
    ensures RowTells(RowAfter(r, b), a + b)
  {
    var c := a + b;
    forall k | 0 <= k < |c| && c[k].hash == r.hash
      ensures k >= |a|
    {
    }
    if b != [] {
      assert c[|c| - 1] == b[|b| - 1];
    }
    assert forall k :: |a| <= k < |c| ==> c[k] == b[k - |a|];
  }

  lemma RowStillTells(a: seq<Sent>, b: seq<Sent>, r: Row, h: Hash, maxRetries: int)
    requires OneEndpoint(b, h, maxRetries) && r.hash != h && RowTells(r, a)
    ensures RowTells(r, a + b)
  {
    var c := a + b;
    assert forall k :: 0 <= k < |a| ==> c[k] == a[k];
    assert forall k :: |a| <= k < |c| ==> c[k].hash == h by {
      assert forall k :: |a| <= k < |c| ==> c[k] == b[k - |a|];
    }
  }

  lemma RowsTellMore(
    before: seq<Row>, rows: seq<Row>, a: seq<Sent>, b: seq<Sent>, log: nat, hashes: seq<Hash>, i: nat, maxRetries: int)
    requires RowsTell(before, rows, a, log, hashes) && UniqueRows(before)
    requires i < |before| && before[i].log == log && before[i].status in {Pending, Failed}
    requires before[i].hash != "" && before[i].hash !in hashes
    requires OneEndpoint(b, before[i].hash, maxRetries) && !WasCalled(a, before[i].hash)
    ensures RowsTell(before, rows[i := RowAfter(before[i], b)], a + b, log, hashes + [before[i].hash])
  {
    hide RowTells, OneEndpoint, WasCalled;
    RowTellsAfter(a, b, before[i], maxRetries);
    assert RowAfter(before[i], b).status in {Completed, Failed, Unknown};
    hide RowAfter;
    forall k | 0 <= k < |before| && before[k].log == log && before[k].hash in hashes && before[k].hash != ""
               && before[k].status in {Pending, Failed}
      ensures RowTells(rows[k], a + b)
    {
      RowStillTells(a, b, rows[k], before[i].hash, maxRetries);
    }
  }

  /** An endpoint without a retryable row adds nothing. */
  lemma RowsTellSame(before: seq<Row>, rows: seq<Row>, calls: seq<Sent>, log: nat, hashes: seq<Hash>, h: Hash)
    requires RowsTell(before, rows, calls, log, hashes)
    requires forall i :: 0 <= i < |before| && before[i].log == log && before[i].hash == h && h != "" ==>
      before[i].status !in {Pending, Failed}
    ensures RowsTell(before, rows, calls, log, hashes + [h])
  {
    hide RowTells;
  }

  lemma CallsMore(a: seq<Sent>, b: seq<Sent>, h: Hash, maxRetries: int)
    requires OneEndpoint(b, h, maxRetries)
    ensures forall x :: WasCalled(a + b, x) <==> WasCalled(a, x) || (x == h && b != [])
  {
    var c := a + b;
    forall x
      ensures WasCalled(c, x) <==> WasCalled(a, x) || (x == h && b != [])
    {
      if WasCalled(a, x) {
        var k :| 0 <= k < |a| && a[k].hash == x;
        assert c[k].hash == x;
      }
      if b != [] {
        assert c[|a|] == b[0];
      }
      assert forall k :: |a| <= k < |c| ==> c[k] == b[k - |a|];
    }
  }

  /** What all of this says of a run, after any part of the list. */
  ghost predicate Told(before: seq<Row>, r: RunState, log: nat, subs: seq<Sub>, maxRetries: int) {
    && Grouped(r.calls, maxRetries)
    && SetOf(r.expired) == ForgottenIn(r.calls)
    && r.accepted == Count(r.calls, OkCall())
    && RowsTell(before, r.rows, r.calls, log, Hashes(subs))
    && CallsWhom(before, r.calls, log, subs, maxRetries)
  }

  lemma ToldSkip(before: seq<Row>, r: RunState, t: RunState, log: nat, subs: seq<Sub>, sub: Sub, maxRetries: int)
    requires Told(before, r, log, subs, maxRetries)
    requires t.calls == r.calls && t.expired == r.expired && t.accepted == r.accepted && t.rows == r.rows
    requires forall i :: 0 <= i < |before| && before[i].log == log && before[i].hash == sub.hash && sub.hash != "" ==>
      before[i].status !in {Pending, Failed}
    ensures Told(before, t, log, subs + [sub], maxRetries)
  {
    hide Grouped, ForgottenIn, Count, RowsTell;
    RowsTellSame(before, r.rows, r.calls, log, Hashes(subs), sub.hash);
    LastHash(subs + [sub]);
    assert (subs + [sub])[..|subs|] == subs;
  }

  lemma CallsWhomMore(
    before: seq<Row>, a: seq<Sent>, log: nat, subs: seq<Sub>, sub: Sub, i: nat, b: seq<Sent>, maxRetries: int)
    requires CallsWhom(before, a, log, subs, maxRetries) && sub.hash !in Hashes(subs)
    requires sub.hash != "" && i < |before| && Matches(before[i], log, sub.hash)
    requires before[i].status in {Pending, Failed}
    requires OneEndpoint(b, sub.hash, maxRetries) && (b == [] <==> !sub.readable || maxRetries < 0)
    ensures !WasCalled(a, sub.hash)
    ensures CallsWhom(before, a + b, log, subs + [sub], maxRetries)
  {
    assert Sub(sub.hash, true) !in subs by {
      assert forall j :: 0 <= j < |subs| ==> Hashes(subs)[j] == subs[j].hash;
    }
    assert !WasCalled(a, sub.hash);
    CallsMore(a, b, sub.hash, maxRetries);
    hide WasCalled, OneEndpoint;
    forall h
      ensures Sub(h, true) in subs + [sub] <==> Sub(h, true) in subs || (h == sub.hash && sub.readable)
    {
    }
  }

  lemma ToldCalls(
    before: seq<Row>, r: RunState, log: nat, subs: seq<Sub>, sub: Sub, i: nat, calls: seq<Sent>, maxRetries: int)
    requires Told(before, r, log, subs, maxRetries) && UniqueRows(before) && sub.hash !in Hashes(subs)
    requires sub.hash != "" && i < |before| && Matches(before[i], log, sub.hash)
    requires before[i].status in {Pending, Failed} && |r.rows| == |before| && r.rows[i] == before[i]
    requires OneEndpoint(calls, sub.hash, maxRetries) && (calls == [] <==> !sub.readable || maxRetries < 0)
    ensures Told(before, AfterCalls(r, i, sub.hash, calls), log, subs + [sub], maxRetries)
  {
    hide WasCalled, Grouped, RowsTell, ForgottenIn, Count, OneEndpoint, SetOf, RowAfter, CallsWhom, UniqueRows;
    CallsWhomMore(before, r.calls, log, subs, sub, i, calls, maxRetries);
    GroupedAppend(r.calls, calls, sub.hash, maxRetries);
    ForgottenAppend(r.calls, calls, sub.hash, maxRetries);
    OkAppend(r.calls, calls, sub.hash, maxRetries, before[i]);
    RowsTellMore(before, r.rows, r.calls, calls, log, Hashes(subs), i, maxRetries);
    LastHash(subs + [sub]);
    hide Hashes;
    assert (subs + [sub])[..|subs|] == subs;
    SetOfConcat(r.expired, [sub.hash]);
    SetOfSingle(sub.hash);
    assert r.expired + [] == r.expired;
  }

  lemma SetOfSingle(h: Hash)
    ensures SetOf([h]) == {h}
  {
  }

  lemma DistinctInit(hashes: seq<Hash>, h: Hash)
    requires Distinct(hashes + [h])
    ensures Distinct(hashes) && h !in hashes
  {
    var all := hashes + [h];
    assert forall i :: 0 <= i < |hashes| ==> all[i] == hashes[i];
    assert all[|hashes|] == h;
  }

  /** A run over distinct endpoints does what its calls tell: only endpoints with a pending or failed row are
      called, each until a final answer or maxRetries + 1 times; those refused with 404 or 410 lose their
      subscription; the accepted total counts the accepted calls; and every such row says what became of it. */
  lemma {:induction false} RunTells(rows: seq<Row>, pos: nat, log: nat, subs: seq<Sub>, stream: Stream, maxRetries: int)
    requires UniqueRows(rows) && Distinct(Hashes(subs))
    ensures Told(rows, RunSubs(Start(rows, pos), log, subs, stream, maxRetries), log, subs, maxRetries)
  {
    if |subs| == 0 {
      assert SetOf<Hash>([]) == {} == ForgottenIn([]);
    } else {
      var n := |subs| - 1;
      var sub := subs[n];
      assert subs == subs[..n] + [sub];
      LastHash(subs);
      DistinctInit(Hashes(subs[..n]), sub.hash);
      hide Told, SubDone, RunSub, UniqueRows, Hashes, Distinct;
      RunTells(rows, pos, log, subs[..n], stream, maxRetries);
      var r := RunSubs(Start(rows, pos), log, subs[..n], stream, maxRetries);
      SubMeaning(r, log, sub, stream, maxRetries);
      ToldStep(rows, r, RunSub(r, log, sub, stream, maxRetries), log, subs[..n], sub, maxRetries);
    }
  }

  /** So far no row has changed its endpoint, and none of this endpoint has changed at all. */
  lemma ToldKeeps(before: seq<Row>, r: RunState, log: nat, subs: seq<Sub>, h: Hash, maxRetries: int)
    requires Told(before, r, log, subs, maxRetries) && h !in Hashes(subs)
    ensures |r.rows| == |before|
    ensures forall i :: 0 <= i < |before| ==> r.rows[i].log == before[i].log && r.rows[i].hash == before[i].hash
    ensures forall i :: 0 <= i < |before| && before[i].hash == h ==> r.rows[i] == before[i]
  {
    hide Grouped, ForgottenIn, Count, CallsWhom, RowTells, Hashes;
    assert RowsTell(before, r.rows, r.calls, log, Hashes(subs));
  }

  lemma ToldStep(before: seq<Row>, r: RunState, t: RunState, log: nat, subs: seq<Sub>, sub: Sub, maxRetries: int)
    requires Told(before, r, log, subs, maxRetries) && UniqueRows(before) && sub.hash !in Hashes(subs)
    requires SubDone(r, t, log, sub, maxRetries)
    ensures Told(before, t, log, subs + [sub], maxRetries)
  {
    hide Told, OneEndpoint, AfterCalls, Hashes, RowTells, UniqueRows;
    ToldKeeps(before, r, log, subs, sub.hash, maxRetries);
    FindStable(before, r.rows, log, sub.hash);
    var f := if sub.hash == "" then None else Find(before, log, sub.hash);
    hide Find;
    if f.Some? && before[f.value].status in {Pending, Failed} {
      var calls :|
        && OneEndpoint(calls, sub.hash, maxRetries)
        && (calls == [] <==> !sub.readable || maxRetries < 0)
        && t == AfterCalls(r, f.value, sub.hash, calls);
      ToldCalls(before, r, log, subs, sub, f.value, calls, maxRetries);
    } else {
      NothingToSend(before, log, sub.hash);
      ToldSkip(before, r, t, log, subs, sub, maxRetries);
    }
  }

  lemma NothingToSend(before: seq<Row>, log: nat, h: Hash)
    requires UniqueRows(before)
    requires var f := Find(before, log, h); h == "" || f.None? || before[f.value].status !in {Pending, Failed}
    ensures forall i :: 0 <= i < |before| && before[i].log == log && before[i].hash == h && h != "" ==>
      before[i].status !in {Pending, Failed}
  {
    forall i: nat | i < |before| && before[i].log == log && before[i].hash == h && h != ""
      ensures before[i].status !in {Pending, Failed}
    {
      FindUnique(before, log, h, i);
    }
  }

  /** The same for a run with its preparation: it starts from prepared rows. */
  lemma FullRunTells(rows: seq<Row>, pos: nat, log: nat, subs: seq<Sub>, stream: Stream, maxRetries: int)
    returns (ready: seq<Row>)
    requires UniqueRows(rows) && Distinct(Hashes(subs))
    ensures Prepared(rows, ready, log, Hashes(subs)) && UniqueRows(ready)
    ensures Told(ready, FullRun(rows, pos, log, subs, stream, maxRetries), log, subs, maxRetries)
  {
    hide Told, Prepared, EnsureRows;
    EnsureMeaning(rows, log, Hashes(subs));
    ready := EnsureRows(rows, log, Hashes(subs));
    RunTells(ready, pos, log, subs, stream, maxRetries);
  }

  lemma ToldParts(before: seq<Row>, r: RunState, log: nat, subs: seq<Sub>, maxRetries: int)
    requires Told(before, r, log, subs, maxRetries)
    ensures Grouped(r.calls, maxRetries) && SetOf(r.expired) == ForgottenIn(r.calls)
    ensures RowsTell(before, r.rows, r.calls, log, Hashes(subs)) && CallsWhom(before, r.calls, log, subs, maxRetries)
  {
  }
}
