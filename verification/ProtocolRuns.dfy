/** What the delivery protocol guarantees over every run. */
module ProtocolRuns {
  import opened Prelude
  import opened DeliveryRows
  import opened PushRetry
  import opened DeliveryProtocol

  /** A run from an empty database: ss[i] is the state before action i. */
  ghost predicate Behavior(ss: seq<State>, acts: seq<Action>) {
    && |ss| == |acts| + 1
    && Init(ss[0])
    && forall i :: 0 <= i < |acts| ==> Enabled(ss[i], acts[i]) && ss[i + 1] == Step(ss[i], acts[i])
  }

  lemma {:induction false} InvAlways(ss: seq<State>, acts: seq<Action>, i: nat)
    requires Behavior(ss, acts) && i < |ss|
    ensures Inv(ss[i])
  {
    if i > 0 {
      InvAlways(ss, acts, i - 1);
      InvStep(ss[i - 1], acts[i - 1]);
    }
  }

  // ---- at most once ----

  /** The call was accepted, got no answer, or its answer was never seen. */
  predicate MayHaveArrived(c: Call) { c.result.None? || c.result.value.ok || c.result.value.status.None? }

  /** For every log and endpoint, at most one provider call can have been delivered,
      and no call for that pair follows it. */
  lemma AtMostOnce(ss: seq<State>, acts: seq<Action>, i: nat, c: nat, d: nat)
    requires Behavior(ss, acts) && i < |ss|
    requires c < |ss[i].calls| && d < |ss[i].calls|
    requires ss[i].calls[c].log == ss[i].calls[d].log && ss[i].calls[c].hash == ss[i].calls[d].hash
    requires MayHaveArrived(ss[i].calls[c])
    ensures d <= c
    ensures MayHaveArrived(ss[i].calls[d]) ==> d == c
  {
    InvAlways(ss, acts, i);
    var s := ss[i];
    assert s.calls[c].row == s.calls[d].row;
  }

  /** Each row has at most one unrecorded claim, and only while in_progress or unknown. */
  lemma ClaimOwnership(ss: seq<State>, acts: seq<Action>, i: nat, v: WorkerId, w: WorkerId, r: nat)
    requires Behavior(ss, acts) && i < |ss|
    requires HoldsRow(ss[i], v, r) && HoldsRow(ss[i], w, r)
    ensures v == w
    ensures r < |ss[i].rows| && ss[i].rows[r].status in {InProgress, Unknown}
  {
    InvAlways(ss, acts, i);
  }

  // ---- absorbing rows ----

  /** Completed, abandoned, or unknown with no worker still holding the claim. */
  ghost predicate Sealed(s: State, r: nat) {
    && r < |s.rows|
    && s.rows[r].status in {Completed, Abandoned, Unknown}
    && forall w :: !HoldsRow(s, w, r)
  }

  ghost predicate CallsAvoid(before: seq<Call>, after: seq<Call>, r: nat) {
    && |before| <= |after|
    && forall c :: |before| <= c < |after| ==> after[c].row != r
  }

  lemma SealedStep(s: State, a: Action, r: nat)
    requires Inv(s) && Enabled(s, a) && Sealed(s, r)
    ensures var t := Step(s, a); Sealed(t, r) && t.rows[r] == s.rows[r] && CallsAvoid(s.calls, t.calls, r)
  {
    hide Counts, FailLogs, FailWithFallback, UpdateLog, Grant, EnsureRows, Hashes;
    hide CallsOnRows, EarlierRefused, DeliveredSealed, UniqueLogs, Find;
    var t := Step(s, a);
    if a.Prepare? {
      EnsureMeaning(s.rows, s.workers[a.w].log, Hashes(a.subs));
    }
    assert a.Record? || a.StartCall? ==> HoldsRow(s, a.w, s.workers[a.w].row);
    forall w
      ensures !HoldsRow(t, w, r)
    {
      assert !HoldsRow(s, w, r);
    }
  }

  /** Although record_delivery_results has no status guard, a sealed row never changes
      again and its endpoint is never called again in that log. */
  lemma {:induction false} SealedForever(ss: seq<State>, acts: seq<Action>, i: nat, j: nat, r: nat)
    requires Behavior(ss, acts) && i <= j < |ss|
    requires Sealed(ss[i], r)
    ensures Sealed(ss[j], r) && ss[j].rows[r] == ss[i].rows[r] && CallsAvoid(ss[i].calls, ss[j].calls, r)
  {
    hide Step, Enabled;
    if i < j {
      SealedForever(ss, acts, i, j - 1, r);
      InvAlways(ss, acts, j - 1);
      SealedStep(ss[j - 1], acts[j - 1], r);
      CallsOnlyGrow(ss[j - 1], acts[j - 1]);
    }
  }

  lemma CallsOnlyGrow(s: State, a: Action)
    requires Enabled(s, a)
    ensures var t := Step(s, a);
      |s.calls| <= |t.calls| && forall c :: 0 <= c < |s.calls| ==> t.calls[c].row == s.calls[c].row
  {
  }

  /** A completed or abandoned row is sealed: no worker can hold it. */
  lemma SettledIsSealed(ss: seq<State>, acts: seq<Action>, i: nat, r: nat)
    requires Behavior(ss, acts) && i < |ss| && r < |ss[i].rows|
    requires ss[i].rows[r].status in {Completed, Abandoned}
    ensures Sealed(ss[i], r)
  {
    InvAlways(ss, acts, i);
  }

  // ---- conservation of claims ----

  function Suspect(): Row -> bool { (r: Row) => r.status == InProgress || r.status == Unknown }

  function IsUnknown(): Row -> bool { (r: Row) => r.status == Unknown }

  function Holders(s: State): set<WorkerId> { set w | w in s.workers && Holds(s.workers[w]) }

  predicate HoldsUncertain(p: Phase) { p.Decided? && p.attempt.uncertain }

  function UncertainHolders(s: State): set<WorkerId> { set w | w in s.workers && HoldsUncertain(s.workers[w]) }

  function Unanswered(): Call -> bool { (c: Call) => c.result == Some(Outcome(false, None)) }

  /** Every claimed or unknown row is accounted for by exactly one of: a result recorded
      as unknown, an interruption of its holder, or a worker still holding it. */
  ghost predicate Conserved(s: State) {
    Count(s.rows, Suspect()) == s.uncertain + s.interrupted + |Holders(s)|
  }

  ghost predicate UncertainBounded(s: State) {
    s.uncertain + |UncertainHolders(s)| <= Count(s.calls, Unanswered())
  }

  lemma SuspectsOfRows(s: State, a: Action)
    requires Inv(s) && Enabled(s, a)
    ensures Count(Step(s, a).rows, Suspect()) ==
      Count(s.rows, Suspect())
      + (if a.Claim? then 1 else 0)
      - (if a.Record? && !s.workers[a.w].attempt.uncertain then 1 else 0)
  {
    hide CallsOnRows, EarlierRefused, DeliveredSealed, Find, Counts, FailLogs;
    hide FailWithFallback, UpdateLog, Grant, Count;
    var t := Step(s, a);
    match a
    case Prepare(w, subs) => EnsureKeepsCount(s.rows, s.workers[w].log, Hashes(subs), Suspect());
    case Claim(w) => CountDiffer(s.rows, t.rows, Suspect(), Suspect(), t.workers[w].row);
    case Record(w) => CountDiffer(s.rows, t.rows, Suspect(), Suspect(), s.workers[w].row);
    case Sweep(_, _, picked) => SettledSuspects(s.rows, picked);
    case FailRun(w, _, _) => SettledSuspects(s.rows, {s.workers[w].log});
    case _ =>
  }

  lemma SettledSuspects(rows: seq<Row>, picked: set<nat>)
    ensures Count(SettleRows(rows, picked), Suspect()) == Count(rows, Suspect())
  {
    CountPointwise(rows, SettleRows(rows, picked), Suspect(), Suspect());
  }

  /** What a step does to the claims: who holds one before and after, and what is booked for it. */
  lemma HoldersOfStep(s: State, a: Action)
    requires Inv(s) && Enabled(s, a)
    ensures var t := Step(s, a);
      && t.uncertain == s.uncertain + (if a.Record? && s.workers[a.w].attempt.uncertain then 1 else 0)
      && t.interrupted == s.interrupted
           + (if (a.FailRun? || a.Crash?) && a.w in Holders(s) then 1 else 0)
      && (a.Sweep? ==> t.workers == s.workers)
      && (!a.Sweep? ==> forall v :: v != a.w ==> (v in Holders(s) <==> v in Holders(t)))
      && (a.Claim? ==> a.w !in Holders(s) && a.w in Holders(t))
      && (a.Record? ==> a.w in Holders(s) && a.w !in Holders(t))
      && (a.FailRun? || a.Crash? ==> a.w !in Holders(t))
      && (!(a.Sweep? || a.Claim? || a.Record? || a.FailRun? || a.Crash?) ==>
            (a.w in Holders(s) <==> a.w in Holders(t)))
  {
    hide Inv, Find, Counts, EnsureRows, SettleRows, FailLogs, FailWithFallback, UpdateLog, RecordRow, Grant;
  }

  lemma ConservedStep(s: State, a: Action)
    requires Inv(s) && Enabled(s, a) && Conserved(s)
    ensures Conserved(Step(s, a))
  {
    SuspectsOfRows(s, a);
    HoldersOfStep(s, a);
    hide Step;
    var t := Step(s, a);
    if a.Sweep? {
      assert Holders(t) == Holders(s);
    } else {
      SetSize(Holders(s), Holders(t), a.w);
    }
  }

  lemma UncertainHoldersOfStep(s: State, a: Action)
    requires Enabled(s, a)
    ensures var t := Step(s, a);
      && t.uncertain == s.uncertain + (if a.Record? && s.workers[a.w].attempt.uncertain then 1 else 0)
      && (a.Sweep? ==> t.workers == s.workers)
      && (!a.Sweep? ==> forall v :: v != a.w ==> (v in UncertainHolders(s) <==> v in UncertainHolders(t)))
      && (a.Answer? ==> a.w !in UncertainHolders(s) && (a.w in UncertainHolders(t) ==> NoAnswer(a.o)))
      && (a.Record? ==>
        a.w !in UncertainHolders(t) && (a.w in UncertainHolders(s) <==> s.workers[a.w].attempt.uncertain))
      && (!a.Sweep? && !a.Answer? && a.w in UncertainHolders(t) ==> a.w in UncertainHolders(s))
  {
    hide Find, Counts, EnsureRows, SettleRows, FailLogs, FailWithFallback, UpdateLog, RecordRow, Grant;
  }

  lemma UnansweredOfStep(s: State, a: Action)
    requires ClaimsOwned(s) && Enabled(s, a)
    ensures Count(Step(s, a).calls, Unanswered())
         == Count(s.calls, Unanswered()) + (if a.Answer? && NoAnswer(a.o) then 1 else 0)
  {
    hide Find, Counts, EnsureRows, SettleRows, FailLogs, FailWithFallback, UpdateLog, RecordRow, Grant;
    var t := Step(s, a);
    if a.Answer? {
      CountDiffer(s.calls, t.calls, Unanswered(), Unanswered(), s.workers[a.w].call);
    } else if a.StartCall? {
      CountAppend(s.calls, t.calls[|s.calls|], Unanswered());
    }
  }

  lemma UncertainStep(s: State, a: Action)
    requires Inv(s) && Enabled(s, a) && UncertainBounded(s)
    ensures UncertainBounded(Step(s, a))
  {
    UncertainHoldersOfStep(s, a);
    UnansweredOfStep(s, a);
    var t := Step(s, a);
    hide Step, Inv, Enabled, UncertainHolders;
    if !a.Sweep? {
      SetSize(UncertainHolders(s), UncertainHolders(t), a.w);
    } else {
      SameUncertainHolders(s, t);
    }
  }

  lemma SameUncertainHolders(s: State, t: State)
    requires t.workers == s.workers
    ensures UncertainHolders(t) == UncertainHolders(s)
  {
  }

  lemma {:induction false} ConservedAlways(ss: seq<State>, acts: seq<Action>, i: nat)
    requires Behavior(ss, acts) && i < |ss|
    ensures Conserved(ss[i]) && UncertainBounded(ss[i])
  {
    if i == 0 {
      assert Holders(ss[0]) == {} && UncertainHolders(ss[0]) == {};
    } else {
      hide Inv, Step, Enabled, Conserved, UncertainBounded;
      ConservedAlways(ss, acts, i - 1);
      InvAlways(ss, acts, i - 1);
      ConservedStep(ss[i - 1], acts[i - 1]);
      UncertainStep(ss[i - 1], acts[i - 1]);
    }
  }

  /** Bounded loss: the endpoints given up as unknown are at most the calls that got no
      answer, the interruptions that hit a claim, and the claims open right now. */
  lemma BoundedLoss(ss: seq<State>, acts: seq<Action>, i: nat)
    requires Behavior(ss, acts) && i < |ss|
    ensures Count(ss[i].rows, Suspect()) == ss[i].uncertain + ss[i].interrupted + |Holders(ss[i])|
    ensures Count(ss[i].rows, IsUnknown())
         <= Count(ss[i].calls, Unanswered()) + ss[i].interrupted + |Holders(ss[i])|
  {
    ConservedAlways(ss, acts, i);
    CountMonotone(ss[i].rows, IsUnknown(), Suspect());
  }

  // ---- one grant per failure ----

  predicate GrantsLog(s: State, a: Action, l: nat) {
    a.TakeGrant? && Grant(s.logs, a.event, a.dType, a.now).1 == Some(l)
  }

  /** The action writes status 'failed' into log l. */
  predicate MarksFailed(s: State, a: Action, l: nat) {
    match a
    case Sweep(_, _, picked) => l in picked
    case FailRun(w, _, _) => w in s.workers && s.workers[w].log == l
    case Finish(w, _) =>
      && w in s.workers && s.workers[w].Counted?
      && s.workers[w].log == l && s.workers[w].counts.failed > 0
    case _ => false
  }

  lemma LogsStep(s: State, a: Action, l: nat)
    requires Inv(s) && Enabled(s, a) && l < |s.logs|
    ensures var t := Step(s, a);
      && l < |t.logs| && t.logs[l].event == s.logs[l].event && t.logs[l].dType == s.logs[l].dType
      && (s.logs[l].status != LogFailed && t.logs[l].status == LogFailed ==> MarksFailed(s, a, l))
  {
  }

  /** From a log that is not failed to the same log failed, some action in between marked it so. */
  lemma {:induction false} FailureHasCause(ss: seq<State>, acts: seq<Action>, i: nat, j: nat, l: nat)
    requires Behavior(ss, acts) && i <= j < |ss|
    requires l < |ss[i].logs| && ss[i].logs[l].status != LogFailed
    ensures l < |ss[j].logs|
    ensures ss[j].logs[l].event == ss[i].logs[l].event && ss[j].logs[l].dType == ss[i].logs[l].dType
    ensures ss[j].logs[l].status == LogFailed ==> exists k :: i <= k < j && MarksFailed(ss[k], acts[k], l)
  {
    hide Step, Enabled;
    if i < j {
      FailureHasCause(ss, acts, i, j - 1, l);
      InvAlways(ss, acts, j - 1);
      LogsStep(ss[j - 1], acts[j - 1], l);
      if ss[j].logs[l].status == LogFailed && ss[j - 1].logs[l].status != LogFailed {
        assert MarksFailed(ss[j - 1], acts[j - 1], l);
      }
    }
  }

  /** Two successful create_notification_log calls for one (event, d_type) return the same
      log, and between them that log was set to failed. */
  lemma GrantExclusivity(ss: seq<State>, acts: seq<Action>, i: nat, j: nat)
    requires Behavior(ss, acts) && i < j < |acts|
    requires acts[i].TakeGrant? && acts[j].TakeGrant?
    requires acts[i].event == acts[j].event && acts[i].dType == acts[j].dType
    ensures exists l, k :: GrantsLog(ss[i], acts[i], l) && GrantsLog(ss[j], acts[j], l)
                        && i < k < j && MarksFailed(ss[k], acts[k], l)
  {
    var a := acts[i];
    InvAlways(ss, acts, i);
    InvAlways(ss, acts, i + 1);
    InvAlways(ss, acts, j);
    GrantMeaning(ss[i].logs, a.event, a.dType, a.now);
    GrantMeaning(ss[j].logs, a.event, a.dType, acts[j].now);
    var l := Grant(ss[i].logs, a.event, a.dType, a.now).1.value;
    assert ss[i + 1].logs[l].status == LogPending;
    FailureHasCause(ss, acts, i + 1, j, l);
    assert ss[j].logs[l].status == LogFailed;
    var k :| i + 1 <= k < j && MarksFailed(ss[k], acts[k], l);
    assert FindLog(ss[j].logs, a.event, a.dType) == Some(l);
    assert GrantsLog(ss[i], acts[i], l) && GrantsLog(ss[j], acts[j], l);
  }

  // ---- workers that are not overtaken ----

  /** No live worker is on log l. */
  ghost predicate Unattended(s: State, l: nat) { forall w :: w in s.workers ==> s.workers[w].log != l }

  ghost predicate SparesWorkers(s: State, a: Action) {
    a.Sweep? ==> forall l :: l in a.picked ==> Unattended(s, l)
  }

  /** Any number of workers, none of which is overtaken: a sweep picks no log with a live worker on it. */
  ghost predicate TimelyBehavior(ss: seq<State>, acts: seq<Action>) {
    && Behavior(ss, acts)
    && forall i :: 0 <= i < |acts| ==> SparesWorkers(ss[i], acts[i])
  }

  /** w's log says that it runs, and the log's claims are w's own. */
  ghost predicate TimelyWorker(s: State, w: WorkerId)
    requires w in s.workers
  {
    var p := s.workers[w];
    && p.log < |s.logs|
    && s.logs[p.log].status == (if p.Granted? then LogPending else LogInProgress)
    && (forall i :: 0 <= i < |s.rows| && s.rows[i].log == p.log && s.rows[i].status == InProgress ==>
          Holds(p) && p.row == i)
    && (Holds(p) ==> p.row < |s.rows| && s.rows[p.row].log == p.log && s.rows[p.row].status == InProgress)
  }

  ghost predicate ClaimsInOpenLogs(s: State) {
    forall i :: 0 <= i < |s.rows| && s.rows[i].status == InProgress ==>
      s.rows[i].log < |s.logs| && s.logs[s.rows[i].log].status == LogInProgress
  }

  ghost predicate ClaimsInOpenLog(s: State, l: nat) {
    forall i :: 0 <= i < |s.rows| && s.rows[i].log == l && s.rows[i].status == InProgress ==>
      l < |s.logs| && s.logs[l].status == LogInProgress
  }

  ghost predicate OneWorkerPerLog(s: State) {
    forall v, w :: v in s.workers && w in s.workers && v != w ==> s.workers[v].log != s.workers[w].log
  }

  ghost predicate TimelyInv(s: State) {
    && ClaimsInOpenLogs(s)
    && OneWorkerPerLog(s)
    && forall w :: w in s.workers ==> TimelyWorker(s, w)
  }

  /** Everything outside w and its log l is as it was; new rows are not claimed. */
  ghost predicate OnlyOwn(s: State, t: State, w: WorkerId, l: nat) {
    && (forall v :: v != w ==>
          (v in t.workers <==> v in s.workers) && (v in t.workers ==> t.workers[v] == s.workers[v]))
    && |t.logs| == |s.logs| && (forall k :: 0 <= k < |s.logs| && k != l ==> t.logs[k] == s.logs[k])
    && |s.rows| <= |t.rows|
    && (forall i :: 0 <= i < |s.rows| ==>
          t.rows[i].log == s.rows[i].log && (s.rows[i].log != l ==> t.rows[i] == s.rows[i]))
    && (forall i :: |s.rows| <= i < |t.rows| ==> t.rows[i].status != InProgress)
  }

  lemma OthersStayTimely(s: State, t: State, w: WorkerId, v: WorkerId)
    requires TimelyInv(s) && w in s.workers && v in s.workers && v != w && OnlyOwn(s, t, w, s.workers[w].log)
    ensures v in t.workers && TimelyWorker(t, v) && t.workers[v].log != s.workers[w].log
  {
    assert TimelyWorker(s, v);
  }

  /** A step of w alone keeps the invariant if it leaves w in order or gone, and no claim in a closed log. */
  lemma TimelyFrame(s: State, t: State, w: WorkerId)
    requires TimelyInv(s) && w in s.workers && OnlyOwn(s, t, w, s.workers[w].log)
    requires w in t.workers ==> TimelyWorker(t, w) && t.workers[w].log == s.workers[w].log
    requires w !in t.workers ==> ClaimsInOpenLog(t, s.workers[w].log)
    ensures TimelyInv(t)
  {
    assert TimelyWorker(s, w);
    forall v | v in t.workers
      ensures TimelyWorker(t, v) && (v != w ==> t.workers[v].log != s.workers[w].log)
    {
      if v != w { OthersStayTimely(s, t, w, v); }
    }
  }

  /** w moves on without touching a log, and holds whatever row of its log is in progress afterwards. */
  lemma TimelyOwn(s: State, t: State, w: WorkerId)
    requires TimelyInv(s) && w in s.workers && w in t.workers && !s.workers[w].Granted? && !t.workers[w].Granted?
    requires t.workers == s.workers[w := t.workers[w]] && t.workers[w].log == s.workers[w].log && t.logs == s.logs
    requires OwnRows(s.rows, t.rows, s.workers[w].log, t.workers[w])
    ensures TimelyInv(t)
  {
    assert TimelyWorker(s, w);
    assert TimelyWorker(t, w);
    assert OnlyOwn(s, t, w, s.workers[w].log);
    hide TimelyInv, TimelyWorker, OnlyOwn;
    TimelyFrame(s, t, w);
  }

  /** Only rows of log l changed, new rows are not claimed, and those of l in progress are exactly what
      the worker in phase q holds. */
  ghost predicate OwnRows(before: seq<Row>, after: seq<Row>, l: nat, q: Phase) {
    && |before| <= |after|
    && (forall i :: 0 <= i < |before| ==>
          after[i].log == before[i].log && (before[i].log != l ==> after[i] == before[i]))
    && (forall i :: |before| <= i < |after| ==> after[i].status != InProgress)
    && (forall i :: 0 <= i < |after| && after[i].log == l && after[i].status == InProgress ==> Holds(q) && q.row == i)
    && (Holds(q) ==> q.row < |after| && after[q.row].log == l && after[q.row].status == InProgress)
  }

  lemma TimelyGrant(s: State, a: Action)
    requires Inv(s) && Enabled(s, a) && TimelyInv(s) && a.TakeGrant?
    ensures TimelyInv(Step(s, a))
  {
    GrantMeaning(s.logs, a.event, a.dType, a.now);
    var t := Step(s, a);
    var l := t.workers[a.w].log;
    hide Inv, Grant;
    assert l < |s.logs| ==> s.logs[l].status == LogFailed;
    GrantedIsTimely(s, t, a.w, l);
  }

  /** A new worker on a log that nobody is on. */
  lemma GrantedIsTimely(s: State, t: State, w: WorkerId, l: nat)
    requires TimelyInv(s) && w !in s.workers && t.workers == s.workers[w := Granted(l)] && t.rows == s.rows
    requires |s.logs| <= |t.logs| && l < |t.logs| && t.logs[l].status == LogPending
    requires forall k :: 0 <= k < |s.logs| && k != l ==> t.logs[k] == s.logs[k]
    requires l < |s.logs| ==> s.logs[l].status == LogFailed
    ensures TimelyInv(t)
  {
    forall v | v in s.workers
      ensures s.workers[v].log != l && TimelyWorker(t, v)
    {
      assert TimelyWorker(s, v);
    }
  }

  /** A log that was not picked keeps its state and its rows. */
  ghost predicate SweptOutside(s: State, t: State, picked: set<nat>) {
    && t.workers == s.workers && |t.logs| == |s.logs| && |t.rows| == |s.rows|
    && (forall k :: 0 <= k < |s.logs| && k !in picked ==> t.logs[k] == s.logs[k])
    && (forall i :: 0 <= i < |s.rows| ==> t.rows[i].log == s.rows[i].log)
    && (forall i :: 0 <= i < |s.rows| && s.rows[i].log !in picked ==> t.rows[i] == s.rows[i])
    && (forall i :: 0 <= i < |s.rows| && s.rows[i].log in picked ==> t.rows[i].status != InProgress)
  }

  lemma SweepIsOutside(s: State, now: int, picked: set<nat>)
    ensures SweptOutside(s, DoSweep(s, now, picked), picked)
  {
    hide Counts;
  }

  lemma SweptWorker(s: State, t: State, picked: set<nat>, v: WorkerId)
    requires SweptOutside(s, t, picked) && v in s.workers && TimelyWorker(s, v) && s.workers[v].log !in picked
    ensures TimelyWorker(t, v)
  {
  }

  lemma SweptClaims(s: State, t: State, picked: set<nat>)
    requires SweptOutside(s, t, picked) && ClaimsInOpenLogs(s) && OneWorkerPerLog(s)
    ensures ClaimsInOpenLogs(t) && OneWorkerPerLog(t)
  {
  }

  lemma TimelySweep(s: State, a: Action)
    requires Enabled(s, a) && TimelyInv(s) && a.Sweep? && SparesWorkers(s, a)
    ensures TimelyInv(Step(s, a))
  {
    hide DoSweep, SweptOutside, TimelyWorker, ClaimsInOpenLogs, OneWorkerPerLog;
    var t := DoSweep(s, a.now, a.picked);
    SweepIsOutside(s, a.now, a.picked);
    SweptClaims(s, t, a.picked);
    assert t.workers == s.workers by { SweptKeepsWorkers(s, t, a.picked); }
    forall v | v in s.workers
      ensures TimelyWorker(t, v)
    {
      assert s.workers[v].log !in a.picked;
      SweptWorker(s, t, a.picked, v);
    }
  }

  lemma SweptKeepsWorkers(s: State, t: State, picked: set<nat>)
    requires SweptOutside(s, t, picked)
    ensures t.workers == s.workers
  {
  }

  /** Preparing claims nothing and leaves other logs alone. */
  lemma PreparedOwn(rows: seq<Row>, l: nat, hashes: seq<Hash>, todo: seq<Sub>)
    requires UniqueRows(rows)
    requires forall i :: 0 <= i < |rows| && rows[i].log == l ==> rows[i].status != InProgress
    ensures OwnRows(rows, EnsureRows(rows, l, hashes), l, Scanning(l, todo))
  {
    EnsureMeaning(rows, l, hashes);
    hide EnsureRows, UniqueRows;
  }

  lemma TimelyPrepare(s: State, a: Action)
    requires Inv(s) && Enabled(s, a) && TimelyInv(s) && a.Prepare?
    ensures TimelyInv(Step(s, a))
  {
    assert TimelyWorker(s, a.w);
    var l := s.workers[a.w].log;
    assert forall i :: 0 <= i < |s.rows| && s.rows[i].log == l ==> s.rows[i].status != InProgress;
    hide EnsureRows, TimelyInv, TimelyWorker, OwnRows, UniqueRows;
    PreparedOwn(s.rows, l, Hashes(a.subs), a.subs);
    TimelyOwn(s, DoPrepare(s, a.w, a.subs), a.w);
  }

  /** w is gone without changing a row; its log is still in progress, or no row of it is claimed. */
  lemma TimelyGone(s: State, t: State, w: WorkerId)
    requires TimelyInv(s) && w in s.workers && t.workers == s.workers - {w} && t.rows == s.rows
    requires |t.logs| == |s.logs| && forall k :: 0 <= k < |s.logs| && k != s.workers[w].log ==> t.logs[k] == s.logs[k]
    requires t.logs == s.logs || !Holds(s.workers[w])
    ensures TimelyInv(t)
  {
    assert TimelyWorker(s, w);
    assert OnlyOwn(s, t, w, s.workers[w].log);
    assert ClaimsInOpenLog(t, s.workers[w].log);
    hide TimelyInv, TimelyWorker, OnlyOwn, ClaimsInOpenLog;
    TimelyFrame(s, t, w);
  }

  lemma TimelyLeave(s: State, a: Action)
    requires Enabled(s, a) && TimelyInv(s)
    requires a.FinishEmpty? || a.Finish? || a.Crash?
    ensures TimelyInv(Step(s, a))
  {
    hide TimelyInv, Counts;
    TimelyGone(s, Step(s, a), a.w);
  }

  lemma TimelyFail(s: State, a: Action)
    requires Enabled(s, a) && TimelyInv(s) && a.FailRun?
    ensures TimelyInv(Step(s, a))
  {
    hide TimelyInv, Counts;
    var t := Step(s, a);
    var l := s.workers[a.w].log;
    assert OnlyOwn(s, t, a.w, l);
    assert ClaimsInOpenLog(t, l);
    hide Step, OnlyOwn, ClaimsInOpenLog, TimelyWorker;
    TimelyFrame(s, t, a.w);
  }

  lemma TimelyRunning(s: State, a: Action)
    requires Enabled(s, a) && TimelyInv(s) && a.MarkRunning?
    ensures TimelyInv(Step(s, a))
  {
    assert TimelyWorker(s, a.w);
    hide TimelyInv;
    TimelyFrame(s, Step(s, a), a.w);
  }

  /** w moves on without touching a row or a log, and holds what it held. */
  lemma TimelyHolding(s: State, t: State, w: WorkerId)
    requires TimelyInv(s) && w in s.workers && w in t.workers && !s.workers[w].Granted? && !t.workers[w].Granted?
    requires t.workers == s.workers[w := t.workers[w]] && t.logs == s.logs && t.rows == s.rows
    requires var p, q := s.workers[w], t.workers[w];
      q.log == p.log && (Holds(p) <==> Holds(q)) && (Holds(p) && Holds(q) ==> q.row == p.row)
    ensures TimelyInv(t)
  {
    assert TimelyWorker(s, w);
    assert OwnRows(s.rows, t.rows, s.workers[w].log, t.workers[w]);
    hide TimelyInv, TimelyWorker, OwnRows;
    TimelyOwn(s, t, w);
  }

  lemma TimelyMove(s: State, a: Action)
    requires Enabled(s, a) && TimelyInv(s)
    requires a.Peek? || a.PassOver? || a.ReadCounts? || a.NoCall? || a.StartCall? || a.Answer?
    ensures TimelyInv(Step(s, a))
  {
    hide TimelyInv, Find, Counts, Seen;
    TimelyHolding(s, Step(s, a), a.w);
  }

  lemma TimelyClaim(s: State, a: Action)
    requires Enabled(s, a) && TimelyInv(s) && a.Claim?
    ensures TimelyInv(Step(s, a))
  {
    assert TimelyWorker(s, a.w);
    hide TimelyInv, Find;
    var t := DoClaim(s, a.w);
    assert OwnRows(s.rows, t.rows, s.workers[a.w].log, t.workers[a.w]);
    hide OwnRows, TimelyWorker;
    TimelyOwn(s, t, a.w);
  }

  lemma TimelyRecord(s: State, a: Action)
    requires Enabled(s, a) && TimelyInv(s) && a.Record?
    ensures TimelyInv(Step(s, a))
  {
    assert TimelyWorker(s, a.w);
    hide TimelyInv;
    var t := DoRecord(s, a.w);
    assert OwnRows(s.rows, t.rows, s.workers[a.w].log, t.workers[a.w]);
    hide OwnRows, TimelyWorker;
    TimelyOwn(s, t, a.w);
  }

  lemma TimelyStep(s: State, a: Action)
    requires Inv(s) && Enabled(s, a) && TimelyInv(s) && SparesWorkers(s, a)
    ensures TimelyInv(Step(s, a))
  {
    hide TimelyInv, Inv, SparesWorkers;
    match a
    case Sweep(_, _, _) => TimelySweep(s, a);
    case TakeGrant(_, _, _, _) => TimelyGrant(s, a);
    case Prepare(_, _) => TimelyPrepare(s, a);
    case FinishEmpty(_, _) => TimelyLeave(s, a);
    case Finish(_, _) => TimelyLeave(s, a);
    case FailRun(_, _, _) => TimelyFail(s, a);
    case Crash(_) => TimelyLeave(s, a);
    case Record(_) => TimelyRecord(s, a);
    case Claim(_) => TimelyClaim(s, a);
    case MarkRunning(_, _) => TimelyRunning(s, a);
    case _ => TimelyMove(s, a);
  }

  lemma {:induction false} TimelyAlways(ss: seq<State>, acts: seq<Action>, i: nat)
    requires TimelyBehavior(ss, acts) && i < |ss|
    ensures TimelyInv(ss[i])
  {
    if i > 0 {
      hide Inv, Step, Enabled, SparesWorkers;
      TimelyAlways(ss, acts, i - 1);
      InvAlways(ss, acts, i - 1);
      TimelyStep(ss[i - 1], acts[i - 1]);
    }
  }

  /** While no worker is overtaken, a claimed row always belongs to a log that is in progress, so the
      sweep can find it; and no two workers that hold a claim are on the same log. */
  lemma ClaimsAreRecoverable(ss: seq<State>, acts: seq<Action>, i: nat, r: nat)
    requires TimelyBehavior(ss, acts) && i < |ss|
    requires r < |ss[i].rows| && ss[i].rows[r].status == InProgress
    ensures ss[i].rows[r].log < |ss[i].logs| && ss[i].logs[ss[i].rows[r].log].status == LogInProgress
    ensures OneWorkerPerLog(ss[i])
  {
    TimelyAlways(ss, acts, i);
  }

  function IsOpenClaim(): Row -> bool { (r: Row) => r.status == InProgress }

  /** Distinct workers hold distinct claimed rows, so there are at least as many of those. */
  lemma {:induction false} HoldersHaveRows(held: set<WorkerId>, workers: map<WorkerId, Phase>, rows: seq<Row>)
    requires forall w :: w in held ==>
      && w in workers && Holds(workers[w]) && workers[w].row < |rows|
      && rows[workers[w].row].status == InProgress
    requires forall v, w :: v in held && w in held && v != w && Holds(workers[v]) && Holds(workers[w]) ==>
      workers[v].row != workers[w].row
    ensures |held| <= Count(rows, IsOpenClaim())
    decreases held
  {
    hide Count;
    if w :| w in held {
      var i := workers[w].row;
      var less := rows[i := rows[i].(status := Unknown)];
      HoldersHaveRows(held - {w}, workers, less);
      CountDiffer(rows, less, IsOpenClaim(), IsOpenClaim(), i);
    }
  }

  lemma HolderRowIsClaimed(s: State)
    requires TimelyInv(s) && ClaimsOwned(s)
    ensures |Holders(s)| <= Count(s.rows, IsOpenClaim())
  {
    forall w | w in Holders(s)
      ensures s.rows[s.workers[w].row].status == InProgress
    {
      assert TimelyWorker(s, w);
    }
    HoldersHaveRows(Holders(s), s.workers, s.rows);
  }

  /** Bounded loss while no worker is overtaken: the endpoints given up as unknown are at most the calls
      that got no answer and the interruptions that hit a claim. */
  lemma TimelyBoundedLoss(ss: seq<State>, acts: seq<Action>, i: nat)
    requires TimelyBehavior(ss, acts) && i < |ss|
    ensures Count(ss[i].rows, IsUnknown()) <= Count(ss[i].calls, Unanswered()) + ss[i].interrupted
  {
    TimelyAlways(ss, acts, i);
    InvAlways(ss, acts, i);
    BoundedLoss(ss, acts, i);
    ConservedAlways(ss, acts, i);
    HolderRowIsClaimed(ss[i]);
    CountSplit(ss[i].rows, Suspect(), IsUnknown(), IsOpenClaim());
  }

  // ---- completed logs ----

  predicate LogIsCompleted(s: State, l: nat) { l < |s.logs| && s.logs[l].status == LogCompleted }

  lemma CompletedStep(s: State, a: Action, l: nat)
    requires Inv(s) && Enabled(s, a) && LogIsCompleted(s, l) && Unattended(s, l)
    ensures var t := Step(s, a); l < |t.logs| && t.logs[l] == s.logs[l] && Unattended(t, l)
  {
    hide ClaimsOwned, CallsOnRows, EarlierRefused, DeliveredSealed, UniqueRows, Find, Counts, EnsureRows, SettleRows;
    if a.TakeGrant? {
      GrantMeaning(s.logs, a.event, a.dType, a.now);
    }
  }

  /** Whatever else runs, a completed log that no worker is on never changes again. */
  lemma {:induction false} CompletedForever(ss: seq<State>, acts: seq<Action>, i: nat, j: nat, l: nat)
    requires Behavior(ss, acts) && i <= j < |ss|
    requires LogIsCompleted(ss[i], l) && Unattended(ss[i], l)
    ensures l < |ss[j].logs| && ss[j].logs[l] == ss[i].logs[l] && Unattended(ss[j], l)
  {
    hide Step, Enabled, Unattended;
    if i < j {
      CompletedForever(ss, acts, i, j - 1, l);
      InvAlways(ss, acts, j - 1);
      CompletedStep(ss[j - 1], acts[j - 1], l);
    }
  }

  /** A worker that is still on a log can always fail it, and then gives its claims up as unknown. */
  lemma AttendedCanFail(s: State, w: WorkerId, l: nat)
    requires w in s.workers && s.workers[w].log == l && l < |s.logs|
    ensures Enabled(s, FailRun(w, 0, 0)) && l < |Step(s, FailRun(w, 0, 0)).logs|
    ensures Step(s, FailRun(w, 0, 0)).logs[l].status == LogFailed
    ensures ClaimsLost(s.rows, Step(s, FailRun(w, 0, 0)).rows, l)
  {
    hide Counts;
  }

  /** all continues the behaviour ss with the actions more. */
  ghost predicate Continues(ss: seq<State>, acts: seq<Action>, all: seq<State>, more: seq<Action>) {
    Behavior(all, acts + more) && ss <= all
  }

  lemma OneMore(ss: seq<State>, acts: seq<Action>, a: Action)
    requires Behavior(ss, acts) && Enabled(ss[|acts|], a)
    ensures Continues(ss, acts, ss + [Step(ss[|acts|], a)], [a])
  {
    hide Step, Enabled;
  }

  /** Exactly when a completed log is final: it stays as it is in every continuation if and only if no
      live worker is on it, because update_notification_log and mark_log_failed do not look at the status. */
  lemma CompletedIsFinalIff(ss: seq<State>, acts: seq<Action>, l: nat)
    requires Behavior(ss, acts) && LogIsCompleted(ss[|acts|], l)
    ensures Unattended(ss[|acts|], l) <==>
      forall all: seq<State>, more: seq<Action> :: Continues(ss, acts, all, more) ==>
        l < |all[|all| - 1].logs| && all[|all| - 1].logs[l] == ss[|acts|].logs[l]
  {
    hide Step, Enabled;
    var s := ss[|acts|];
    if Unattended(s, l) {
      forall all: seq<State>, more: seq<Action> | Continues(ss, acts, all, more)
        ensures l < |all[|all| - 1].logs| && all[|all| - 1].logs[l] == s.logs[l]
      {
        assert all[|acts|] == s;
        CompletedForever(all, acts + more, |acts|, |all| - 1, l);
      }
    } else {
      var w :| w in s.workers && s.workers[w].log == l;
      var fail := FailRun(w, 0, 0);
      AttendedCanFail(s, w, l);
      OneMore(ss, acts, fail);
      var all := ss + [Step(s, fail)];
      assert Continues(ss, acts, all, [fail]);
      assert all[|all| - 1].logs[l].status == LogFailed;
    }
  }

  /** While no worker is overtaken, no worker is on a completed log, so it is final. */
  lemma TimelyCompletedIsFinal(ss: seq<State>, acts: seq<Action>, i: nat, j: nat, l: nat)
    requires TimelyBehavior(ss, acts) && i <= j < |ss| && LogIsCompleted(ss[i], l)
    ensures l < |ss[j].logs| && ss[j].logs[l] == ss[i].logs[l]
  {
    TimelyAlways(ss, acts, i);
    assert Unattended(ss[i], l) by {
      forall w | w in ss[i].workers
        ensures ss[i].workers[w].log != l
      {
        assert TimelyWorker(ss[i], w);
      }
    }
    CompletedForever(ss, acts, i, j, l);
  }

  // ---- recovery ----

  /** A log that is pending or in progress and was last updated before the cutoff can be swept, whoever is or
      was on it. */
  lemma StaleCanBeSwept(s: State, l: nat, cutoff: int, now: int)
    requires l < |s.logs| && s.logs[l].status in {LogPending, LogInProgress} && s.logs[l].updatedAt < cutoff
    ensures Enabled(s, Sweep(cutoff, now, {l}))
    ensures var t := Step(s, Sweep(cutoff, now, {l}));
      && LogFailedNow(s.logs, t.logs, s.rows, l, now) && ClaimsLost(s.rows, t.rows, l)
      && t.workers == s.workers && t.calls == s.calls
  {
    FailMeaning(s.logs, s.rows, l, now);
    hide SettleRows, FailLogs, LogFailedNow, ClaimsLost;
  }

  /** A failed log is granted to any worker that asks for its pair. */
  lemma FailedIsGranted(s: State, l: nat, v: WorkerId, now: int)
    requires UniqueLogs(s.logs) && l < |s.logs| && s.logs[l].status == LogFailed && v !in s.workers
    ensures var grant := TakeGrant(v, s.logs[l].event, s.logs[l].dType, now);
      && Enabled(s, grant)
      && Step(s, grant) == s.(workers := s.workers[v := Granted(l)],
           logs := s.logs[l := Log(s.logs[l].event, s.logs[l].dType, LogPending, 0, 0, None, now)])
  {
    GrantMeaning(s.logs, s.logs[l].event, s.logs[l].dType, now);
    hide FindLog;
    assert FindLog(s.logs, s.logs[l].event, s.logs[l].dType) == Some(l);
  }

  /** So whatever a dead worker leaves behind is taken up again: once its log, pending or in progress, is
      older than the cutoff, a sweep fails it, gives its claims up as unknown, and the next worker that asks
      for the pair is granted the log. */
  lemma CrashIsRecoverable(
    ss: seq<State>, acts: seq<Action>, w: WorkerId, v: WorkerId, cutoff: int, now: int, later: int)
    returns (all: seq<State>)
    requires Behavior(ss, acts) && w in ss[|acts|].workers && (v == w || v !in ss[|acts|].workers)
    requires var s, l := ss[|acts|], ss[|acts|].workers[w].log;
      l < |s.logs| && s.logs[l].status in {LogPending, LogInProgress} && s.logs[l].updatedAt < cutoff
    ensures var s, l := ss[|acts|], ss[|acts|].workers[w].log;
      var more := [Crash(w), Sweep(cutoff, now, {l}), TakeGrant(v, s.logs[l].event, s.logs[l].dType, later)];
      && Continues(ss, acts, all, more)
      && var t := all[|all| - 1];
      && t.workers == (s.workers - {w})[v := Granted(l)]
      && t.logs == s.logs[l := Log(s.logs[l].event, s.logs[l].dType, LogPending, 0, 0, None, later)]
      && ClaimsLost(s.rows, t.rows, l) && t.calls == s.calls
  {
    assert |ss| == |acts| + 1;
    hide LogFailedNow, ClaimsLost, Step, Enabled, Behavior, Inv;
    var s := ss[|acts|];
    var l := s.workers[w].log;
    var crash, sweep, grant :=
      Crash(w), Sweep(cutoff, now, {l}), TakeGrant(v, s.logs[l].event, s.logs[l].dType, later);
    InvAlways(ss, acts, |acts|);
    CrashChangesNothing(s, w);
    var dead := Step(s, crash);
    StaleCanBeSwept(dead, l, cutoff, now);
    var swept := Step(dead, sweep);
    FailedKeepsPairs(s, swept, l, now, Log(s.logs[l].event, s.logs[l].dType, LogPending, 0, 0, None, later));
    FailedIsGranted(swept, l, v, later);
    all := Extended(ss, acts, crash, sweep, grant, dead, swept, Step(swept, grant));
  }

  /** Any live worker can die at any point; the tables and the calls stay as they are. */
  lemma CrashChangesNothing(s: State, w: WorkerId)
    requires w in s.workers
    ensures Enabled(s, Crash(w))
    ensures Step(s, Crash(w)) == s.(workers := s.workers - {w}, interrupted := Step(s, Crash(w)).interrupted)
  {
  }

  lemma FailedKeepsPairs(s: State, t: State, l: nat, now: int, m: Log)
    requires Inv(s) && LogFailedNow(s.logs, t.logs, s.rows, l, now)
    ensures UniqueLogs(t.logs) && l < |t.logs| && t.logs[l].status == LogFailed
    ensures t.logs[l].event == s.logs[l].event && t.logs[l].dType == s.logs[l].dType
    ensures t.logs[l := m] == s.logs[l := m]
  {
    hide ClaimsOwned, CallsOnRows, EarlierRefused, DeliveredSealed, UniqueRows, RowsIn;
  }

  /** Three more steps. */
  lemma Extended(ss: seq<State>, acts: seq<Action>, a: Action, b: Action, c: Action, x: State, y: State, z: State)
    returns (all: seq<State>)
    requires |ss| == |acts| + 1 && Behavior(ss, acts)
    requires Enabled(ss[|acts|], a) && Step(ss[|acts|], a) == x
    requires Enabled(x, b) && Step(x, b) == y && Enabled(y, c) && Step(y, c) == z
    ensures Continues(ss, acts, all, [a, b, c]) && all[|all| - 1] == z
  {
    hide Step, Enabled, Behavior;
    OneMore(ss, acts, a);
    OneMore(ss + [x], acts + [a], b);
    OneMore(ss + [x] + [y], acts + [a] + [b], c);
    all := ss + [x] + [y] + [z];
    assert acts + [a] + [b] + [c] == acts + [a, b, c];
  }
}
