/** The in-memory sliding window that limits how often a client may post, and the full history
    it stands for. */
module PostRateLimit {
  import opened Prelude

  type ClientKey = string

  /** An accepted request. */
  datatype Hit = Hit(key: ClientKey, at: real)

  /** A request as the limiter sees it; amount and window come from the configured limit. */
  datatype Request = Request(key: ClientKey, at: real)

  type Table = map<ClientKey, seq<real>>

  function Bucket(table: Table, key: ClientKey): seq<real> { if key in table then table[key] else [] }

  /** popleft while the oldest entry is older than the window. */
  function DropOld(bucket: seq<real>, now: real, window: real): seq<real> {
    if bucket != [] && now - bucket[0] > window then DropOld(bucket[1..], now, window) else bucket
  }

  predicate Admits(table: Table, r: Request, amount: int, window: real) {
    |DropOld(Bucket(table, r.key), r.at, window)| < amount
  }

  function Enforce(table: Table, r: Request, amount: int, window: real): Table {
    var kept := DropOld(Bucket(table, r.key), r.at, window);
    table[r.key := if |kept| < amount then kept + [r.at] else kept]
  }

  // ---- the history it refines ----

  /** The times at which key was accepted, oldest first. */
  function TimesOf(history: seq<Hit>, key: ClientKey): seq<real> {
    if |history| == 0 then []
    else
      var last := history[|history| - 1];
      TimesOf(history[..|history| - 1], key) + (if last.key == key then [last.at] else [])
  }

  function Within(now: real, window: real): real -> bool { (t: real) => now - t <= window }

  /** The specification: fewer than amount acceptances of this key lie within the window. */
  predicate SpecAdmits(history: seq<Hit>, r: Request, amount: int, window: real) {
    Count(TimesOf(history, r.key), Within(r.at, window)) < amount
  }

  function Extend(history: seq<Hit>, r: Request, amount: int, window: real): seq<Hit> {
    if SpecAdmits(history, r, amount, window) then history + [Hit(r.key, r.at)] else history
  }

  ghost predicate Nondecreasing(times: seq<real>) {
    forall i, j :: 0 <= i < j < |times| ==> times[i] <= times[j]
  }

  /** The bucket is what is left of the key's accepted times after dropping a prefix of times that
      were already too old at clock. */
  ghost predicate Suffix(times: seq<real>, bucket: seq<real>, clock: real, window: real) {
    && |bucket| <= |times|
    && times[|times| - |bucket|..] == bucket
    && Nondecreasing(times)
    && (forall i :: 0 <= i < |times| ==> times[i] <= clock)
    && (forall i :: 0 <= i < |times| - |bucket| ==> clock - times[i] > window)
  }

  ghost predicate Refines(table: Table, history: seq<Hit>, clock: real, window: real) {
    forall key :: Suffix(TimesOf(history, key), Bucket(table, key), clock, window)
  }

  /** Dropping the old entries keeps the suffix and leaves exactly the entries in the window. */
  lemma {:induction false} DropKeepsSuffix(times: seq<real>, bucket: seq<real>, clock: real, now: real, window: real)
    requires Suffix(times, bucket, clock, window) && clock <= now
    ensures Suffix(times, DropOld(bucket, now, window), now, window)
    ensures |DropOld(bucket, now, window)| == Count(times, Within(now, window))
    decreases |bucket|
  {
    assert Suffix(times, bucket, now, window);
    if bucket != [] && now - bucket[0] > window {
      assert times[|times| - |bucket|] == bucket[0];
      assert times[|times| - |bucket[1..]|..] == bucket[1..];
      DropKeepsSuffix(times, bucket[1..], now, now, window);
    } else {
      CountSuffix(times, |times| - |bucket|, now, window);
    }
  }

  lemma {:induction false} CountSuffix(times: seq<real>, k: nat, now: real, window: real)
    requires k <= |times| && Nondecreasing(times)
    requires forall i :: 0 <= i < k ==> now - times[i] > window
    requires k < |times| ==> now - times[k] <= window
    ensures Count(times, Within(now, window)) == |times| - k
  {
    if |times| == k {
      CountZero(times, Within(now, window));
    } else {
      CountSuffix(times[..|times| - 1], k, now, window);
    }
  }

  lemma TimesOfExtend(history: seq<Hit>, h: Hit, key: ClientKey)
    ensures TimesOf(history + [h], key) == TimesOf(history, key) + (if h.key == key then [h.at] else [])
  {
    assert (history + [h])[..|history|] == history;
  }

  lemma SuffixLater(times: seq<real>, bucket: seq<real>, clock: real, now: real, window: real)
    requires Suffix(times, bucket, clock, window) && clock <= now
    ensures Suffix(times, bucket, now, window)
  {
  }

  lemma SuffixAppend(times: seq<real>, bucket: seq<real>, now: real, window: real)
    requires Suffix(times, bucket, now, window)
    ensures Suffix(times + [now], bucket + [now], now, window)
  {
    assert (times + [now])[|times| - |bucket|..] == times[|times| - |bucket|..] + [now];
  }

  /** One request: the limiter decides as the history does, and still refines it afterwards. */
  lemma {:induction false} StepRefines(table: Table, history: seq<Hit>, clock: real, r: Request, amount: int,
      window: real)
    requires Refines(table, history, clock, window) && clock <= r.at
    ensures Admits(table, r, amount, window) == SpecAdmits(history, r, amount, window)
    ensures Refines(Enforce(table, r, amount, window), Extend(history, r, amount, window), r.at, window)
  {
    hide Suffix, TimesOf, DropOld, Count;
    var after := Enforce(table, r, amount, window);
    var longer := Extend(history, r, amount, window);
    var kept := DropOld(Bucket(table, r.key), r.at, window);
    DropKeepsSuffix(TimesOf(history, r.key), Bucket(table, r.key), clock, r.at, window);
    SuffixAppend(TimesOf(history, r.key), kept, r.at, window);
    forall key
      ensures Suffix(TimesOf(longer, key), Bucket(after, key), r.at, window)
    {
      var times := TimesOf(history, key);
      TimesOfExtend(history, Hit(r.key, r.at), key);
      assert times + [] == times;
      if key != r.key {
        SuffixLater(times, Bucket(table, key), clock, r.at, window);
      }
    }
  }

  // ---- runs ----

  function TableAfter(rs: seq<Request>, amount: int, window: real): Table {
    if |rs| == 0 then map[] else Enforce(TableAfter(rs[..|rs| - 1], amount, window), rs[|rs| - 1], amount, window)
  }

  function HistoryAfter(rs: seq<Request>, amount: int, window: real): seq<Hit> {
    if |rs| == 0 then [] else Extend(HistoryAfter(rs[..|rs| - 1], amount, window), rs[|rs| - 1], amount, window)
  }

  ghost predicate Clocked(rs: seq<Request>) {
    forall i, j :: 0 <= i < j < |rs| ==> rs[i].at <= rs[j].at
  }

  lemma RefinesLater(table: Table, history: seq<Hit>, clock: real, now: real, window: real)
    requires Refines(table, history, clock, window) && clock <= now
    ensures Refines(table, history, now, window)
  {
    hide Suffix;
    forall key
      ensures Suffix(TimesOf(history, key), Bucket(table, key), now, window)
    {
      SuffixLater(TimesOf(history, key), Bucket(table, key), clock, now, window);
    }
  }

  lemma EmptyRefines(clock: real, window: real)
    ensures Refines(map[], [], clock, window)
  {
  }

  lemma {:induction false} RunRefines(rs: seq<Request>, now: real, amount: int, window: real)
    requires Clocked(rs)
    requires forall i :: 0 <= i < |rs| ==> rs[i].at <= now
    ensures Refines(TableAfter(rs, amount, window), HistoryAfter(rs, amount, window), now, window)
  {
    hide Refines, Enforce, Extend;
    if |rs| == 0 {
      EmptyRefines(now, window);
    } else {
      var n := |rs| - 1;
      RunRefines(rs[..n], rs[n].at, amount, window);
      var table, history := TableAfter(rs[..n], amount, window), HistoryAfter(rs[..n], amount, window);
      StepRefines(table, history, rs[n].at, rs[n], amount, window);
      RefinesLater(Enforce(table, rs[n], amount, window), Extend(history, rs[n], amount, window),
                   rs[n].at, now, window);
    }
  }

  /** With a clock that never goes back, a request is accepted iff fewer than amount earlier
      acceptances of its own key lie within the window: the deque forgets nothing that matters
      and keys do not affect each other. */
  lemma {:induction false} LimiterIsExact(rs: seq<Request>, r: Request, amount: int, window: real)
    requires Clocked(rs)
    requires forall i :: 0 <= i < |rs| ==> rs[i].at <= r.at
    ensures Admits(TableAfter(rs, amount, window), r, amount, window)
        <==> Count(TimesOf(HistoryAfter(rs, amount, window), r.key), Within(r.at, window)) < amount
  {
    RunRefines(rs, r.at, amount, window);
    hide Refines;
    StepRefines(TableAfter(rs, amount, window), HistoryAfter(rs, amount, window), r.at, r, amount, window);
  }

  function Between(from: real, to: real): real -> bool { (t: real) => from <= t <= to }

  /** What the table accepted over a run. */
  function AcceptedBy(rs: seq<Request>, amount: int, window: real): seq<Hit> {
    if |rs| == 0 then []
    else
      var before, r := rs[..|rs| - 1], rs[|rs| - 1];
      AcceptedBy(before, amount, window)
      + (if Admits(TableAfter(before, amount, window), r, amount, window) then [Hit(r.key, r.at)] else [])
  }

  lemma {:induction false} AcceptedIsHistory(rs: seq<Request>, amount: int, window: real)
    requires Clocked(rs)
    ensures AcceptedBy(rs, amount, window) == HistoryAfter(rs, amount, window)
  {
    hide Admits, TimesOf;
    if |rs| > 0 {
      var n := |rs| - 1;
      AcceptedIsHistory(rs[..n], amount, window);
      LimiterIsExact(rs[..n], rs[n], amount, window);
      assert HistoryAfter(rs[..n], amount, window) + [] == HistoryAfter(rs[..n], amount, window);
    }
  }

  /** No closed interval as long as the window ever holds more than amount requests of a key that the
      table accepted. */
  lemma {:induction false} IntervalBound(rs: seq<Request>, amount: int, window: real, key: ClientKey, from: real)
    requires Clocked(rs)
    ensures Count(TimesOf(AcceptedBy(rs, amount, window), key), Between(from, from + window))
         <= if amount < 0 then 0 else amount
    ensures |set j: nat | j < |rs| && WasAccepted(rs, j, amount, window) && rs[j].key == key
                          && from <= rs[j].at <= from + window|
         <= if amount < 0 then 0 else amount
  {
    AcceptedIsHistory(rs, amount, window);
    HistoryBound(rs, amount, window, key, from);
    CountAccepted(rs, key, Between(from, from + window), amount, window);
    hide AcceptedBy, HistoryAfter, TimesOf, Count, WasAccepted;
    assert AcceptedOf(rs, key, Between(from, from + window), amount, window)
        == set j: nat | j < |rs| && WasAccepted(rs, j, amount, window) && rs[j].key == key
                        && from <= rs[j].at <= from + window;
  }

  lemma {:induction false} HistoryBound(rs: seq<Request>, amount: int, window: real, key: ClientKey, from: real)
    requires Clocked(rs)
    ensures Count(TimesOf(HistoryAfter(rs, amount, window), key), Between(from, from + window))
         <= if amount < 0 then 0 else amount
  {
    if |rs| > 0 {
      var n := |rs| - 1;
      HistoryBound(rs[..n], amount, window, key, from);
      var history := HistoryAfter(rs[..n], amount, window);
      TimesOfExtend(history, Hit(rs[n].key, rs[n].at), key);
      var times := TimesOf(history, key);
      assert times + [] == times;
      if rs[n].key == key && SpecAdmits(history, rs[n], amount, window) {
        CountAppend(times, rs[n].at, Between(from, from + window));
        if from <= rs[n].at <= from + window {
          CountMonotone(times, Between(from, from + window), Within(rs[n].at, window));
        }
      }
    }
  }

  /** The table accepted the j-th request of the run. */
  predicate WasAccepted(rs: seq<Request>, j: nat, amount: int, window: real)
    requires j < |rs|
  {
    Admits(TableAfter(rs[..j], amount, window), rs[j], amount, window)
  }

  /** The accepted requests of this key at a time that satisfies p. */
  function AcceptedOf(rs: seq<Request>, key: ClientKey, p: real -> bool, amount: int, window: real): set<nat> {
    set j: nat | j < |rs| && WasAccepted(rs, j, amount, window) && rs[j].key == key && p(rs[j].at)
  }

  lemma {:induction false} CountAccepted(
    rs: seq<Request>, key: ClientKey, p: real -> bool, amount: int, window: real)
    ensures Count(TimesOf(AcceptedBy(rs, amount, window), key), p) == |AcceptedOf(rs, key, p, amount, window)|
  {
    if |rs| == 0 {
      assert AcceptedOf(rs, key, p, amount, window) == {};
    } else {
      hide Admits, Enforce, TimesOf, Count, TableAfter;
      var n, before, r := |rs| - 1, rs[..|rs| - 1], rs[|rs| - 1];
      CountAccepted(before, key, p, amount, window);
      var accepted := AcceptedBy(before, amount, window);
      TimesOfExtend(accepted, Hit(r.key, r.at), key);
      CountAppend(TimesOf(accepted, key), r.at, p);
      assert accepted + [] == accepted && TimesOf(accepted, key) + [] == TimesOf(accepted, key);
      AcceptedOneMore(rs, key, p, amount, window);
    }
  }

  lemma AcceptedOneMore(rs: seq<Request>, key: ClientKey, p: real -> bool, amount: int, window: real)
    requires |rs| > 0
    ensures var n := |rs| - 1;
      var before, one := AcceptedOf(rs[..n], key, p, amount, window),
                         WasAccepted(rs, n, amount, window) && rs[n].key == key && p(rs[n].at);
      && AcceptedOf(rs, key, p, amount, window) == before + (if one then {n} else {})
      && |AcceptedOf(rs, key, p, amount, window)| == |before| + (if one then 1 else 0)
  {
    hide WasAccepted;
    var n := |rs| - 1;
    forall j: nat | j < n
      ensures WasAccepted(rs[..n], j, amount, window) <==> WasAccepted(rs, j, amount, window)
    {
      SameBefore(rs, j, amount, window);
    }
    assert n !in AcceptedOf(rs[..n], key, p, amount, window);
  }

  lemma SameBefore(rs: seq<Request>, j: nat, amount: int, window: real)
    requires j + 1 < |rs|
    ensures WasAccepted(rs[..|rs| - 1], j, amount, window) <==> WasAccepted(rs, j, amount, window)
  {
    hide Admits, TableAfter;
    assert rs[..|rs| - 1][..j] == rs[..j];
  }

  /** The same in plain terms: with a clock that never goes back, a request is accepted iff fewer than
      amount of the earlier requests with its key were accepted at most window ago. */
  lemma {:induction false} LimiterIff(rs: seq<Request>, r: Request, amount: int, window: real)
    requires Clocked(rs)
    requires forall i :: 0 <= i < |rs| ==> rs[i].at <= r.at
    ensures Admits(TableAfter(rs, amount, window), r, amount, window) <==>
      |set j: nat | j < |rs| && WasAccepted(rs, j, amount, window) && rs[j].key == r.key
                    && r.at - rs[j].at <= window| < amount
  {
    LimiterIsExact(rs, r, amount, window);
    AcceptedIsHistory(rs, amount, window);
    CountAccepted(rs, r.key, Within(r.at, window), amount, window);
    hide Admits, TableAfter, HistoryAfter, AcceptedBy, TimesOf, Count, WasAccepted;
    assert AcceptedOf(rs, r.key, Within(r.at, window), amount, window)
        == set j: nat | j < |rs| && WasAccepted(rs, j, amount, window) && rs[j].key == r.key
                        && r.at - rs[j].at <= window;
  }

  // ---- the router's table ----

  class MemberRateTable {
    var table: Table

    constructor ()
      ensures table == map[]
    {
      table := map[];
    }

    /** False is the 429 answer. Reading a missing key creates an empty bucket, as defaultdict does. */
    method EnforceMemberPostLimit(key: ClientKey, now: real, amount: int, window: real, skip: bool)
      returns (accepted: bool)
      modifies this
      ensures skip ==> accepted && table == old(table)
      ensures !skip ==> accepted == Admits(old(table), Request(key, now), amount, window)
      ensures !skip ==> table == Enforce(old(table), Request(key, now), amount, window)
    {
      if skip {
        return true;
      }
      var bucket := if key in table then table[key] else [];
      while bucket != [] && now - bucket[0] > window
        invariant DropOld(bucket, now, window) == DropOld(Bucket(old(table), key), now, window)
        decreases |bucket|
      {
        bucket := bucket[1..];
      }
      table := table[key := bucket];
      if |bucket| >= amount {
        return false;
      }
      table := table[key := bucket + [now]];
      accepted := true;
    }

    /** After a reset the limiter stands for an empty history. */
    method ResetMemberPostLimitCache()
      modifies this
      ensures table == map[]
      ensures forall clock, window :: Refines(table, [], clock, window)
    {
      table := map[];
      forall clock, window
        ensures Refines(table, [], clock, window)
      {
        EmptyRefines(clock, window);
      }
    }
  }
}
