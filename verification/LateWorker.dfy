/** A run in which a worker is overtaken by the stale sweep, another worker completes the log, and the
    first one then moves its own delivery out of unknown and overwrites the completed log. */
module LateWorker {
  import opened Prelude
  import opened DeliveryRows
  import opened PushRetry
  import opened DeliveryProtocol
  import opened ProtocolRuns

  const SUB := Sub("a", true)
  const GONE := Outcome(false, Some(410))

  function TheLog(st: LogStatus, failed: nat, sentAt: Option<int>, now: int): Log {
    Log(7, D1, st, 0, failed, sentAt, now)
  }

  function TheRow(st: RowStatus, code: Option<int>, attempts: nat): Row { Row(0, "a", st, code, attempts) }

  function At0(logs: seq<Log>, rows: seq<Row>, workers: map<WorkerId, Phase>, calls: seq<Call>): State {
    State(3, logs, rows, workers, calls, 0, 0)
  }

  const EMPTY := At0([], [], map[], [])
  const OPEN := Call(0, 0, "a", None)
  const WAITING := Waiting(0, [SUB], 0, 0, 0)

  /** The first worker has claimed the delivery and is waiting for the provider. */
  const STUCK := At0([TheLog(LogInProgress, 0, None, 0)], [TheRow(InProgress, None, 1)], map[0 := WAITING], [OPEN])

  /** The sweep has failed the log and a second worker, without subscribers, has completed it. */
  const DONE := At0([TheLog(LogCompleted, 0, Some(3), 3)], [TheRow(Unknown, None, 1)], map[0 := WAITING], [OPEN])

  /** The first worker has got its answer, recorded it and finished. */
  const OVERWRITTEN := At0([TheLog(LogFailed, 1, Some(3), 4)], [TheRow(Failed, Some(410), 1)], map[],
                           [Call(0, 0, "a", Some(GONE))])

  // ---- the first worker, up to its call ----

  const PENDING := At0([TheLog(LogPending, 0, None, 0)], [], map[0 := Granted(0)], [])
  const RUNNING := At0([TheLog(LogInProgress, 0, None, 0)], [], map[0 := Started(0)], [])
  const PREPARED :=
    At0([TheLog(LogInProgress, 0, None, 0)], [TheRow(Pending, None, 0)], map[0 := Scanning(0, [SUB])], [])
  const PEEKED := PREPARED.(workers := map[0 := Peeked(0, [SUB], Some(Pending))])
  const CLAIMED :=
    At0([TheLog(LogInProgress, 0, None, 0)], [TheRow(InProgress, None, 1)], map[0 := Claimed(0, [SUB], 0, 0)], [])

  lemma StartSteps()
    ensures Enabled(EMPTY, TakeGrant(0, 7, D1, 0)) && Step(EMPTY, TakeGrant(0, 7, D1, 0)) == PENDING
    ensures Enabled(PENDING, MarkRunning(0, 0)) && Step(PENDING, MarkRunning(0, 0)) == RUNNING
  {
  }

  /** Preparing an empty table for one endpoint adds its pending row. */
  lemma OneRowPrepared()
    ensures EnsureRows([], 0, ["a"]) == [TheRow(Pending, None, 0)]
  {
    hide InsertMissing, Clean;
    CleanOneMore([], "a");
    assert [] + ["a"] == ["a"];
    CleanNothing();
    assert AbandonRows([], 0, ["a"]) == [];
    InsertOne();
  }

  lemma InsertOne()
    ensures InsertMissing([], 0, ["a"]) == [TheRow(Pending, None, 0)]
  {
    assert ["a"][..0] == [];
  }

  lemma PrepareSteps()
    ensures Enabled(RUNNING, Prepare(0, [SUB])) && Step(RUNNING, Prepare(0, [SUB])) == PREPARED
  {
    OneRowPrepared();
    hide EnsureRows, Clean;
    assert Hashes([SUB]) == ["a"];
  }

  lemma CallSteps()
    ensures Enabled(PREPARED, Peek(0)) && Step(PREPARED, Peek(0)) == PEEKED
    ensures Enabled(PEEKED, Claim(0)) && Step(PEEKED, Claim(0)) == CLAIMED
    ensures Enabled(CLAIMED, StartCall(0)) && Step(CLAIMED, StartCall(0)) == STUCK
  {
    assert Find([TheRow(Pending, None, 0)], 0, "a") == Some(0);
  }

  // ---- the sweep and the second worker ----

  const SWEPT := At0([TheLog(LogFailed, 1, None, 1)], [TheRow(Unknown, None, 1)], map[0 := WAITING], [OPEN])
  const REGRANTED :=
    At0([TheLog(LogPending, 0, None, 2)], [TheRow(Unknown, None, 1)], map[0 := WAITING, 1 := Granted(0)], [OPEN])
  const RERUNNING :=
    At0([TheLog(LogInProgress, 0, None, 2)], [TheRow(Unknown, None, 1)], map[0 := WAITING, 1 := Started(0)], [OPEN])

  lemma OneRowCounts(r: Row)
    requires r.log == 0 && r.status != Completed && r.status != Abandoned
    ensures Counts([r], 0) == DeliveryCounts(0, 1)
  {
    assert [] + [r] == [r];
    CountAppend([], r, IsCompleted(0));
    CountAppend([], r, IsUnresolved(0));
  }

  lemma SweepSteps()
    ensures Enabled(STUCK, Sweep(1, 1, {0})) && Step(STUCK, Sweep(1, 1, {0})) == SWEPT
  {
    OneRowCounts(TheRow(Unknown, None, 1));
    hide Counts;
    assert SettleRows(STUCK.rows, {0}) == [TheRow(Unknown, None, 1)];
  }

  lemma SecondSteps()
    ensures Enabled(SWEPT, TakeGrant(1, 7, D1, 2)) && Step(SWEPT, TakeGrant(1, 7, D1, 2)) == REGRANTED
    ensures Enabled(REGRANTED, MarkRunning(1, 2)) && Step(REGRANTED, MarkRunning(1, 2)) == RERUNNING
    ensures Enabled(RERUNNING, FinishEmpty(1, 3)) && Step(RERUNNING, FinishEmpty(1, 3)) == DONE
  {
    assert FindLog(SWEPT.logs, 7, D1) == Some(0);
  }

  // ---- the first worker comes back ----

  const ANSWERED := DONE.(workers := map[0 := Decided(0, [SUB], 0, Verdict(GONE))], calls := OVERWRITTEN.calls)
  const RECORDED := ANSWERED.(workers := map[0 := Scanning(0, [])], rows := OVERWRITTEN.rows)
  const COUNTED := RECORDED.(workers := map[0 := Counted(0, DeliveryCounts(0, 1))])

  lemma LateSteps()
    ensures Enabled(DONE, Answer(0, GONE)) && Step(DONE, Answer(0, GONE)) == ANSWERED
    ensures Enabled(ANSWERED, Record(0)) && Step(ANSWERED, Record(0)) == RECORDED
    ensures Enabled(RECORDED, ReadCounts(0)) && Step(RECORDED, ReadCounts(0)) == COUNTED
    ensures Enabled(COUNTED, Finish(0, 4)) && Step(COUNTED, Finish(0, 4)) == OVERWRITTEN
  {
    OneRowCounts(TheRow(Failed, Some(410), 1));
    hide Counts;
    assert [SUB][1..] == [];
  }

  lemma Grow(ss: seq<State>, acts: seq<Action>, a: Action, t: State) returns (all: seq<State>, more: seq<Action>)
    requires |ss| == |acts| + 1 && Behavior(ss, acts) && Enabled(ss[|acts|], a) && Step(ss[|acts|], a) == t
    ensures all == ss + [t] && more == acts + [a] && Behavior(all, more)
  {
    OneMore(ss, acts, a);
    all, more := ss + [t], acts + [a];
  }

  lemma EmptyBehavior()
    ensures Behavior([EMPTY], [])
  {
  }

  lemma ToTheCall() returns (ss: seq<State>, acts: seq<Action>)
    ensures |ss| == |acts| + 1 && Behavior(ss, acts) && ss[|acts|] == STUCK
  {
    hide Step, Enabled, Behavior;
    EmptyBehavior();
    StartSteps();
    PrepareSteps();
    CallSteps();
    ss, acts := [EMPTY], [];
    ss, acts := Grow(ss, acts, TakeGrant(0, 7, D1, 0), PENDING);
    ss, acts := Grow(ss, acts, MarkRunning(0, 0), RUNNING);
    ss, acts := Grow(ss, acts, Prepare(0, [SUB]), PREPARED);
    ss, acts := Grow(ss, acts, Peek(0), PEEKED);
    ss, acts := Grow(ss, acts, Claim(0), CLAIMED);
    ss, acts := Grow(ss, acts, StartCall(0), STUCK);
  }

  lemma ToTheCompletion(before: seq<State>, earlier: seq<Action>) returns (ss: seq<State>, acts: seq<Action>)
    requires |before| == |earlier| + 1 && Behavior(before, earlier) && before[|earlier|] == STUCK
    ensures |ss| == |acts| + 1 && Behavior(ss, acts) && ss[|acts|] == DONE
  {
    hide Step, Enabled, Behavior;
    SweepSteps();
    SecondSteps();
    ss, acts := Grow(before, earlier, Sweep(1, 1, {0}), SWEPT);
    ss, acts := Grow(ss, acts, TakeGrant(1, 7, D1, 2), REGRANTED);
    ss, acts := Grow(ss, acts, MarkRunning(1, 2), RERUNNING);
    ss, acts := Grow(ss, acts, FinishEmpty(1, 3), DONE);
  }

  /** In one reachable run the log is completed and its delivery unknown while a worker is still on
      them; later the delivery is failed, and so is the log. */
  lemma LateWorkerOverwrites() returns (ss: seq<State>, acts: seq<Action>, i: nat)
    ensures |ss| == |acts| + 1 && Behavior(ss, acts) && i < |acts|
    ensures LogIsCompleted(ss[i], 0) && !Unattended(ss[i], 0) && ss[i].rows == [TheRow(Unknown, None, 1)]
    ensures ss[|acts|].logs == [TheLog(LogFailed, 1, Some(3), 4)] && ss[|acts|].rows == [TheRow(Failed, Some(410), 1)]
  {
    hide Step, Enabled, Behavior;
    ss, acts := ToTheCall();
    ss, acts := ToTheCompletion(ss, acts);
    i := |acts|;
    LateSteps();
    ss, acts := Grow(ss, acts, Answer(0, GONE), ANSWERED);
    ss, acts := Grow(ss, acts, Record(0), RECORDED);
    ss, acts := Grow(ss, acts, ReadCounts(0), COUNTED);
    ss, acts := Grow(ss, acts, Finish(0, 4), OVERWRITTEN);
    assert ss[i] == DONE && DONE.workers[0].log == 0;
  }
}
