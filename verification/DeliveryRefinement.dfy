/** The worker only ever takes protocol steps: what a run does to the rows, the log
    and the provider is the effect of a path of the protocol. The guarantees over
    all interleavings therefore cover the code that DeliveryWorker specifies. */
module DeliveryRefinement {
  import opened Prelude
  import opened DeliveryRows
  import opened PushRetry
  import opened DeliveryProtocol
  import opened ProtocolRuns
  import opened DeliveryRun
  import opened DeliveryWorker

  ghost predicate Path(s: State, acts: seq<Action>, t: State)
    decreases |acts|
  {
    if |acts| == 0 then s == t
    else Enabled(s, acts[0]) && Path(Step(s, acts[0]), acts[1..], t)
  }

  lemma {:induction false} PathConcat(s: State, a: seq<Action>, u: State, b: seq<Action>, t: State)
    requires Path(s, a, u) && Path(u, b, t)
    ensures Path(s, a + b, t)
    decreases |a|
  {
    hide Step, Enabled;
    if |a| == 0 {
      assert a + b == b;
    } else {
      PathConcat(Step(s, a[0]), a[1..], u, b, t);
      assert (a + b)[0] == a[0] && (a + b)[1..] == a[1..] + b;
    }
  }

  lemma OneStep(s: State, a: Action)
    requires Enabled(s, a)
    ensures Path(s, [a], Step(s, a))
  {
    hide Step, Enabled;
    assert [a][1..] == [];
    assert Path(Step(s, a), [], Step(s, a));
  }

  /** A path continues a behaviour. */
  lemma {:induction false} Continue(ss: seq<State>, acts: seq<Action>, more: seq<Action>, t: State)
    returns (all: seq<State>)
    requires Behavior(ss, acts) && Path(ss[|acts|], more, t)
    ensures Behavior(all, acts + more) && ss <= all && all[|all| - 1] == t
    decreases |more|
  {
    hide Step, Enabled;
    if |more| == 0 {
      all := ss;
      assert acts + more == acts;
    } else {
      var next := Step(ss[|acts|], more[0]);
      all := Continue(ss + [next], acts + [more[0]], more[1..], t);
      assert acts + [more[0]] + more[1..] == acts + more;
    }
  }

  /** The calls a path appended: n answered calls on one row, with the stream's answers. */
  ghost predicate CallsAppended(before: seq<Call>, after: seq<Call>, row: nat, log: nat, hash: Hash, stream: Stream,
      pos: nat, n: nat)
  {
    && |after| == |before| + n
    && before <= after
    && forall k :: |before| <= k < |after| ==> after[k] == Call(row, log, hash, Some(stream(pos + k - |before|)))
  }

  /** The calls a path appended are these, in order: on this log, to the same endpoints, with the same
      answers. */
  ghost predicate CallsMade(before: seq<Call>, after: seq<Call>, log: nat, sent: seq<Sent>) {
    && |after| == |before| + |sent|
    && before <= after
    && forall k :: |before| <= k < |after| ==>
         && after[k].log == log
         && after[k].hash == sent[k - |before|].hash
         && after[k].result == Some(sent[k - |before|].outcome)
  }

  lemma CallsMadeConcat(a: seq<Call>, b: seq<Call>, c: seq<Call>, log: nat, x: seq<Sent>, y: seq<Sent>)
    requires CallsMade(a, b, log, x) && CallsMade(b, c, log, y)
    ensures CallsMade(a, c, log, x + y)
  {
    assert forall k :: 0 <= k < |b| ==> c[k] == b[k];
    forall k | |a| <= k < |c|
      ensures c[k].log == log && c[k].hash == (x + y)[k - |a|].hash && c[k].result == Some((x + y)[k - |a|].outcome)
    {
      if k >= |b| {
        assert (x + y)[k - |a|] == y[k - |b|];
      }
    }
  }

  lemma NoCallsMade(calls: seq<Call>, log: nat)
    ensures CallsMade(calls, calls, log, [])
  {
  }

  lemma AppendedAreMade(
    before: seq<Call>, after: seq<Call>, row: nat, log: nat, hash: Hash, stream: Stream, pos: nat, n: nat)
    requires CallsAppended(before, after, row, log, hash, stream, pos, n)
    ensures CallsMade(before, after, log, SentCalls(hash, stream, pos, n))
  {
  }

  lemma StartCallPath(s: State, w: WorkerId)
    requires CanStartCall(s, w)
    ensures Path(s, [StartCall(w)], DoStartCall(s, w))
  {
    OneStep(s, StartCall(w));
  }

  lemma AnswerPath(s: State, w: WorkerId, o: Outcome)
    requires CanAnswer(s, w)
    ensures Path(s, [Answer(w, o)], DoAnswer(s, w, o))
  {
    OneStep(s, Answer(w, o));
  }

  lemma NoCallPath(s: State, w: WorkerId)
    requires CanNoCall(s, w)
    ensures Path(s, [NoCall(w)], DoNoCall(s, w))
  {
    OneStep(s, NoCall(w));
  }

  /** One call and its answer. */
  lemma CallStep(s: State, w: WorkerId, o: Outcome) returns (t: State)
    requires CanStartCall(s, w)
    ensures Path(s, [StartCall(w), Answer(w, o)], t)
    ensures var p := s.workers[w];
      t == s.(
        calls := s.calls + [Call(p.row, s.rows[p.row].log, s.rows[p.row].hash, Some(o))],
        workers := s.workers[w := AfterAnswer(Waiting(p.log, p.todo, p.row, p.tries, |s.calls|), o, s.maxRetries)])
  {
    hide Path;
    var u := DoStartCall(s, w);
    StartCallPath(s, w);
    t := DoAnswer(u, w, o);
    AnswerPath(u, w, o);
    PathConcat(s, [StartCall(w)], u, [Answer(w, o)], t);
    assert [StartCall(w)] + [Answer(w, o)] == [StartCall(w), Answer(w, o)];
    assert u.calls[|s.calls| := u.calls[|s.calls|].(result := Some(o))]
        == s.calls + [u.calls[|s.calls|].(result := Some(o))];
  }

  lemma AppendMore(before: seq<Call>, after: seq<Call>, row: nat, log: nat, hash: Hash, stream: Stream, pos: nat,
      n: nat)
    requires CallsAppended(before + [Call(row, log, hash, Some(stream(pos)))], after,
                           row, log, hash, stream, pos + 1, n)
    ensures CallsAppended(before, after, row, log, hash, stream, pos, n + 1)
  {
    var mid := before + [Call(row, log, hash, Some(stream(pos)))];
    assert before <= mid && after[|before|] == mid[|before|];
  }

  /** The retry loop is a path of call and answer steps to its verdict. */
  lemma {:induction false} RetryPath(s: State, w: WorkerId, stream: Stream, pos: nat)
    returns (acts: seq<Action>, t: State)
    requires CanStartCall(s, w)
    ensures Path(s, acts, t)
    ensures var p := s.workers[w];
      var n := CallsFrom(stream, pos, s.maxRetries - p.tries);
      && t == s.(
           calls := t.calls,
           workers := s.workers[w := Decided(p.log, p.todo, p.row, Verdict(stream(pos + n - 1)))])
      && CallsAppended(s.calls, t.calls, p.row, s.rows[p.row].log, s.rows[p.row].hash, stream, pos, n)
    decreases s.maxRetries - s.workers[w].tries
  {
    hide Path, CanAnswer, DoAnswer, DoStartCall;
    var p := s.workers[w];
    var u := CallStep(s, w, stream(pos));
    var first := [StartCall(w), Answer(w, stream(pos))];
    if Retryable(stream(pos)) && p.tries < s.maxRetries {
      var rest;
      rest, t := RetryPath(u, w, stream, pos + 1);
      acts := first + rest;
      PathConcat(s, first, u, rest, t);
      AppendMore(s.calls, t.calls, p.row, s.rows[p.row].log, s.rows[p.row].hash, stream, pos,
                 CallsFrom(stream, pos + 1, s.maxRetries - p.tries - 1));
    } else {
      acts, t := first, u;
    }
  }

  /** Between claiming an endpoint and recording it, the worker follows the retry loop. */
  lemma AttemptPath(s: State, w: WorkerId, stream: Stream, pos: nat) returns (acts: seq<Action>, t: State)
    requires w in s.workers && s.workers[w].Claimed? && s.workers[w].tries == 0 && s.workers[w].todo != []
    requires s.workers[w].row < |s.rows|
    ensures Path(s, acts, t)
    ensures var p := s.workers[w];
      var sub := p.todo[0];
      && t == s.(
           calls := t.calls,
           workers := s.workers[w := Decided(p.log, p.todo, p.row, AttemptFor(sub, stream, pos, s.maxRetries))])
      && CallsAppended(s.calls, t.calls, p.row, s.rows[p.row].log, s.rows[p.row].hash, stream, pos,
                       CallsFor(sub, stream, pos, s.maxRetries))
  {
    hide Path;
    if s.workers[w].todo[0].readable && s.maxRetries >= 0 {
      acts, t := RetryPath(s, w, stream, pos);
    } else {
      acts, t := [NoCall(w)], DoNoCall(s, w);
      NoCallPath(s, w);
    }
  }

  /** One subscriber of the list: peek, and then pass over or claim, call and record. */
  lemma SubPath(s: State, w: WorkerId, stream: Stream, pos: nat) returns (acts: seq<Action>, t: State)
    requires w in s.workers && s.workers[w].Scanning? && s.workers[w].todo != []
    ensures Path(s, acts, t)
    ensures var p := s.workers[w];
      var r := RunSub(Start(s.rows, pos), p.log, p.todo[0], stream, s.maxRetries);
      && t.rows == r.rows && t.logs == s.logs && t.maxRetries == s.maxRetries
      && t.workers == s.workers[w := Scanning(p.log, p.todo[1..])]
      && CallsMade(s.calls, t.calls, p.log, r.calls)
      && t.interrupted == s.interrupted
  {
    var p := s.workers[w];
    var sub := p.todo[0];
    var u := Step(s, Peek(w));
    OneStep(s, Peek(w));
    var f := RowFor(s.rows, p.log, sub);
    NoCallsMade(s.calls, p.log);
    if f.None? || !Claimable(s.rows[f.value].status) {
      t := Step(u, PassOver(w));
      OneStep(u, PassOver(w));
      acts := [Peek(w)] + [PassOver(w)];
      PathConcat(s, [Peek(w)], u, [PassOver(w)], t);
    } else {
      acts, t := ClaimPath(s, u, w, stream, pos);
    }
  }

  /** The calls of an attempt on a claimed row are the endpoint's calls in the run. */
  lemma AttemptIsMade(s: State, u: State, v: State, x: State, w: WorkerId, stream: Stream, pos: nat)
    requires w in s.workers && s.workers[w].Scanning? && s.workers[w].todo != []
    requires u == DoPeek(s, w) && CanClaim(u, w) && v == DoClaim(u, w)
    requires var p := v.workers[w];
      CallsAppended(v.calls, x.calls, p.row, v.rows[p.row].log, v.rows[p.row].hash, stream, pos,
                    CallsFor(p.todo[0], stream, pos, v.maxRetries))
    ensures var p := s.workers[w];
      CallsMade(s.calls, x.calls, p.log,
                SentCalls(p.todo[0].hash, stream, pos, CallsFor(p.todo[0], stream, pos, s.maxRetries)))
  {
    hide CallsAppended, CallsMade, CallsFor, SentCalls, Find;
    var p := v.workers[w];
    AppendedAreMade(v.calls, x.calls, p.row, v.rows[p.row].log, v.rows[p.row].hash, stream, pos,
                    CallsFor(p.todo[0], stream, pos, v.maxRetries));
  }

  lemma ClaimPath(s: State, u: State, w: WorkerId, stream: Stream, pos: nat) returns (acts: seq<Action>, t: State)
    requires w in s.workers && s.workers[w].Scanning? && s.workers[w].todo != []
    requires u == DoPeek(s, w) && Path(s, [Peek(w)], u)
    requires RowFor(s.rows, s.workers[w].log, s.workers[w].todo[0]).Some?
    requires Claimable(s.rows[RowFor(s.rows, s.workers[w].log, s.workers[w].todo[0]).value].status)
    ensures Path(s, acts, t)
    ensures var p := s.workers[w];
      var r := RunSub(Start(s.rows, pos), p.log, p.todo[0], stream, s.maxRetries);
      && t.rows == r.rows && t.logs == s.logs && t.maxRetries == s.maxRetries
      && t.workers == s.workers[w := Scanning(p.log, p.todo[1..])]
      && CallsMade(s.calls, t.calls, p.log, r.calls)
      && t.interrupted == s.interrupted
  {
    hide Path, CallsAppended, CallsMade, CanClaim, DoClaim, CanRecord, DoRecord, RunSub, DoPeek, RowFor;
    MayClaim(s, u, w);
    var v := DoClaim(u, w);
    ClaimStep(u, w);
    var tail, x := AttemptPath(v, w, stream, pos);
    AttemptIsMade(s, u, v, x, w, stream, pos);
    RecordStep(x, w);
    t := DoRecord(x, w);
    PathConcat(s, [Peek(w)], u, [Claim(w)], v);
    PathConcat(s, [Peek(w)] + [Claim(w)], v, tail, x);
    PathConcat(s, [Peek(w)] + [Claim(w)] + tail, x, [Record(w)], t);
    acts := [Peek(w)] + [Claim(w)] + tail + [Record(w)];
    ClaimEffect(s, u, v, x, w, stream, pos);
  }

  lemma MayClaim(s: State, u: State, w: WorkerId)
    requires w in s.workers && s.workers[w].Scanning? && s.workers[w].todo != []
    requires u == DoPeek(s, w)
    requires RowFor(s.rows, s.workers[w].log, s.workers[w].todo[0]).Some?
    requires Claimable(s.rows[RowFor(s.rows, s.workers[w].log, s.workers[w].todo[0]).value].status)
    ensures CanClaim(u, w)
  {
    hide Find;
  }

  lemma ClaimStep(u: State, w: WorkerId)
    requires CanClaim(u, w)
    ensures Path(u, [Claim(w)], DoClaim(u, w))
    ensures var v := DoClaim(u, w);
      && w in v.workers && v.workers[w].Claimed? && v.workers[w].tries == 0 && v.workers[w].todo != []
      && v.workers[w].row < |v.rows|
  {
    hide Find;
    OneStep(u, Claim(w));
  }

  lemma RecordStep(x: State, w: WorkerId)
    requires w in x.workers && x.workers[w].Decided? && x.workers[w].todo != []
    ensures CanRecord(x, w) && Path(x, [Record(w)], DoRecord(x, w))
  {
    OneStep(x, Record(w));
  }

  /** Claiming, attempting and recording amount to the run's treatment of the endpoint. */
  lemma ClaimEffect(s: State, u: State, v: State, x: State, w: WorkerId, stream: Stream, pos: nat)
    requires w in s.workers && s.workers[w].Scanning? && s.workers[w].todo != []
    requires u == DoPeek(s, w) && CanClaim(u, w) && v == DoClaim(u, w)
    requires RowFor(s.rows, s.workers[w].log, s.workers[w].todo[0]).Some?
    requires Claimable(s.rows[RowFor(s.rows, s.workers[w].log, s.workers[w].todo[0]).value].status)
    requires var p := v.workers[w];
      x == v.(calls := x.calls,
              workers := v.workers[w :=
                Decided(p.log, p.todo, p.row, AttemptFor(p.todo[0], stream, pos, v.maxRetries))])
    ensures var p := s.workers[w];
      var r := RunSub(Start(s.rows, pos), p.log, p.todo[0], stream, s.maxRetries);
      var t := DoRecord(x, w);
      && t.rows == r.rows && t.logs == s.logs && t.maxRetries == s.maxRetries && t.calls == x.calls
      && t.workers == s.workers[w := Scanning(p.log, p.todo[1..])] && t.interrupted == s.interrupted
      && r.calls == SentCalls(p.todo[0].hash, stream, pos, CallsFor(p.todo[0], stream, pos, s.maxRetries))
  {
    hide Find, AttemptFor, CallsFor, SentCalls, ClaimedRow, RecordedRow;
    var p := s.workers[w];
    var i := RowFor(s.rows, p.log, p.todo[0]).value;
    ClaimThenRecord(s.rows, i, AttemptFor(p.todo[0], stream, pos, s.maxRetries));
  }

  /** The whole list. */
  lemma {:induction false} SubsPath(s: State, w: WorkerId, stream: Stream, pos: nat)
    returns (acts: seq<Action>, t: State)
    requires w in s.workers && s.workers[w].Scanning?
    ensures Path(s, acts, t)
    ensures var p := s.workers[w];
      var r := RunSubs(Start(s.rows, pos), p.log, p.todo, stream, s.maxRetries);
      && t.rows == r.rows && t.logs == s.logs && t.maxRetries == s.maxRetries
      && t.workers == s.workers[w := Scanning(p.log, [])]
      && CallsMade(s.calls, t.calls, p.log, r.calls)
      && t.interrupted == s.interrupted
    decreases |s.workers[w].todo|
  {
    var p := s.workers[w];
    if p.todo == [] {
      acts, t := [], s;
      NoCallsMade(s.calls, p.log);
      assert s.workers[w := Scanning(p.log, [])] == s.workers;
    } else {
      hide Path, RunSub, RunSubs, CallsMade;
      var head, u := SubPath(s, w, stream, pos);
      var r := RunSub(Start(s.rows, pos), p.log, p.todo[0], stream, s.maxRetries);
      var tail;
      tail, t := SubsPath(u, w, stream, r.pos);
      acts := head + tail;
      PathConcat(s, head, u, tail, t);
      RunFirst(s.rows, pos, p.log, p.todo, stream, s.maxRetries);
      CallsMadeConcat(s.calls, u.calls, t.calls, p.log, r.calls,
                      RunSubs(Start(r.rows, r.pos), p.log, p.todo[1..], stream, s.maxRetries).calls);
    }
  }

  /** A run takes the first endpoint and then the others. */
  lemma RunFirst(rows: seq<Row>, pos: nat, log: nat, subs: seq<Sub>, stream: Stream, maxRetries: int)
    requires subs != []
    ensures var r := RunSub(Start(rows, pos), log, subs[0], stream, maxRetries);
      RunSubs(Start(rows, pos), log, subs, stream, maxRetries)
      == Plus(r, RunSubs(Start(r.rows, r.pos), log, subs[1..], stream, maxRetries))
  {
    hide RunSub;
    var one := [subs[0]];
    assert one[..0] == [] && subs == one + subs[1..];
    RunConcat(Start(rows, pos), log, one, subs[1..], stream, maxRetries);
    assert RunSubs(Start(rows, pos), log, one[..0], stream, maxRetries) == Start(rows, pos);
  }

  /** The non-empty run of process_single_event, from the marked log to its final status. */
  lemma FullRunPath(s: State, w: WorkerId, subs: seq<Sub>, stream: Stream, pos: nat, now: int)
    returns (acts: seq<Action>, t: State)
    requires w in s.workers && s.workers[w].Started? && subs != []
    ensures Path(s, acts, t)
    ensures var l := s.workers[w].log;
      var r := FullRun(s.rows, pos, l, subs, stream, s.maxRetries);
      var c := Counts(r.rows, l);
      && t.rows == r.rows && t.workers == s.workers - {w}
      && t.logs == UpdateLog(s.logs, l, FinalStatus(c), c, now)
      && CallsMade(s.calls, t.calls, l, r.calls)
      && t.interrupted == s.interrupted
  {
    hide Path, RunSubs, Counts, CallsMade;
    var u := DoPrepare(s, w, subs);
    PreparePath(s, w, subs);
    var scan, v := SubsPath(u, w, stream, pos);
    var tail;
    tail, t := ClosePath(v, w, now);
    PathConcat(s, [Prepare(w, subs)], u, scan, v);
    PathConcat(s, [Prepare(w, subs)] + scan, v, tail, t);
    acts := [Prepare(w, subs)] + scan + tail;
  }

  lemma PreparePath(s: State, w: WorkerId, subs: seq<Sub>)
    requires w in s.workers && s.workers[w].Started? && subs != []
    ensures Path(s, [Prepare(w, subs)], DoPrepare(s, w, subs))
  {
    OneStep(s, Prepare(w, subs));
  }

  lemma ClosePath(s: State, w: WorkerId, now: int) returns (acts: seq<Action>, t: State)
    requires CanReadCounts(s, w)
    ensures Path(s, acts, t)
    ensures var l := s.workers[w].log;
      var c := Counts(s.rows, l);
      t == s.(workers := s.workers - {w}, logs := UpdateLog(s.logs, l, FinalStatus(c), c, now))
  {
    var u := DoReadCounts(s, w);
    OneStep(s, ReadCounts(w));
    t := DoFinish(u, w, now);
    OneStep(u, Finish(w, now));
    hide Path;
    PathConcat(s, [ReadCounts(w)], u, [Finish(w, now)], t);
    acts := [ReadCounts(w)] + [Finish(w, now)];
    assert u.workers - {w} == s.workers - {w};
  }

  /** Reclaiming the pair's own stale log is a sweep of that log. */
  lemma ReclaimPath(s: State, event: int, d: DType, now: int) returns (acts: seq<Action>, t: State)
    requires !Occupied(s.logs, event, d, now)
    ensures Path(s, acts, t)
    ensures t == s.(logs := LogsReclaimed(s.logs, s.rows, event, d, now), rows := RowsAtGrant(s.logs, s.rows, event, d))
  {
    hide FindLog, FailLogs, SettleRows, LogsReclaimed, RowsAtGrant, Occupied;
    ReclaimIsStart(s.logs, s.rows, event, d, now);
    var f := FindLog(s.logs, event, d);
    if f.Some? && Stale(s.logs[f.value], now - STALE_AFTER) {
      var sweep := Sweep(now - STALE_AFTER, now, {f.value});
      acts, t := [sweep], DoSweep(s, now, {f.value});
      OneStep(s, sweep);
    } else {
      acts, t := [], s;
    }
  }

  /** Taking the grant and marking the log in progress. */
  lemma StartPath(s: State, w: WorkerId, event: int, d: DType, now: int) returns (acts: seq<Action>, t: State)
    requires CanTakeGrant(s, w, event, d, now)
    ensures Path(s, acts, t)
    ensures var (granted, id) := Grant(s.logs, event, d, now);
      t == s.(logs := UpdateLog(granted, id.value, LogInProgress, DeliveryCounts(0, 0), now),
              workers := s.workers[w := Started(id.value)])
  {
    var u := DoTakeGrant(s, w, event, d, now);
    OneStep(s, TakeGrant(w, event, d, now));
    t := DoMarkRunning(u, w, now);
    OneStep(u, MarkRunning(w, now));
    hide Path, Grant;
    PathConcat(s, [TakeGrant(w, event, d, now)], u, [MarkRunning(w, now)], t);
    acts := [TakeGrant(w, event, d, now)] + [MarkRunning(w, now)];
  }

  lemma EmptyPath(s: State, w: WorkerId, now: int)
    requires w in s.workers && s.workers[w].Started?
    ensures Path(s, [FinishEmpty(w, now)], DoFinishEmpty(s, w, now))
  {
    OneStep(s, FinishEmpty(w, now));
  }

  /** The whole of process_single_event, from an idle worker to an idle worker. */
  lemma EventPath(s: State, w: WorkerId, event: int, d: DType, subs: seq<Sub>, stream: Stream, pos: nat, now: int)
    returns (acts: seq<Action>, t: State)
    requires UniqueLogs(s.logs) && w !in s.workers && s.maxRetries == MAX_RETRIES
    ensures Path(s, acts, t)
    ensures var r := RunEvent(s.logs, s.rows, pos, event, d, subs, stream, now);
      && t.logs == r.logs && t.rows == r.rows && t.workers == s.workers
      && CallsMade(s.calls, t.calls, r.log, r.calls)
      && t.interrupted == s.interrupted
  {
    hide Path, FullRun, Counts, CallsMade;
    if Occupied(s.logs, event, d, now) {
      acts, t := [], s;
      NoPath(s);
      NoCallsMade(s.calls, 0);
    } else {
      var reclaim, u := ReclaimPath(s, event, d, now);
      GrantUnlessOccupied(u.logs, s.logs, s.rows, event, d, now);
      hide Occupied, LogsReclaimed, RowsAtGrant, Grant, FindLog;
      var start, v := StartPath(u, w, event, d, now);
      PathConcat(s, reclaim, u, start, v);
      var run;
      if subs == [] {
        run, t := [FinishEmpty(w, now)], DoFinishEmpty(v, w, now);
        NoCallsMade(s.calls, v.workers[w].log);
        EmptyPath(v, w, now);
      } else {
        run, t := FullRunPath(v, w, subs, stream, pos, now);
      }
      PathConcat(s, reclaim + start, v, run, t);
      acts := reclaim + start + run;
      assert v.workers - {w} == s.workers;
    }
  }

  lemma NoPath(s: State)
    ensures Path(s, [], s)
  {
  }

  /** Whatever happened before, and whoever else is running, the effect of one uninterrupted
      process_single_event on logs and rows, and every call it makes with its endpoint and answer,
      continues the behaviour with protocol steps. */
  lemma RunRefinesProtocol(
    ss: seq<State>, acts: seq<Action>, w: WorkerId, event: int, d: DType, subs: seq<Sub>, stream: Stream,
    pos: nat, now: int)
    returns (all: seq<State>, more: seq<Action>)
    requires Behavior(ss, acts) && w !in ss[|acts|].workers && ss[|acts|].maxRetries == MAX_RETRIES
    ensures Behavior(all, acts + more) && ss <= all
    ensures var s, t := ss[|acts|], all[|all| - 1];
      var r := RunEvent(s.logs, s.rows, pos, event, d, subs, stream, now);
      && t.logs == r.logs && t.rows == r.rows && t.workers == s.workers
      && CallsMade(s.calls, t.calls, r.log, r.calls)
  {
    hide Step, Enabled, Behavior, UniqueLogs, Path, RunEvent, CallsMade;
    BehaviorEnd(ss, acts);
    var t;
    more, t := EventPath(ss[|acts|], w, event, d, subs, stream, pos, now);
    all := Continue(ss, acts, more, t);
  }

  lemma BehaviorEnd(ss: seq<State>, acts: seq<Action>)
    requires Behavior(ss, acts)
    ensures |ss| == |acts| + 1 && UniqueLogs(ss[|acts|].logs)
  {
    InvAlways(ss, acts, |acts|);
  }
}
