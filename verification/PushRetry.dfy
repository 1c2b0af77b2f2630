/** Calling the push provider for one endpoint, with exponential backoff. */
module PushRetry {
  import opened Prelude
  import opened DeliveryRows

  /** What send_async answers: accepted or not, and the HTTP status if one came back. */
  datatype Outcome = Outcome(ok: bool, status: Option<int>)

  /** The answers the provider will give, one per call. */
  type Stream = nat -> Outcome

  /** A call that was made: the endpoint and what the provider answered. */
  datatype Sent = Sent(hash: Hash, outcome: Outcome)

  /** The next n calls, all to one endpoint. */
  function SentCalls(hash: Hash, stream: Stream, pos: nat, n: nat): seq<Sent> {
    seq(n, k requires 0 <= k < n => Sent(hash, stream(pos + k)))
  }

  predicate Permanent(code: int) { code == 400 || code == 404 || code == 410 }

  predicate Retryable(o: Outcome) { !o.ok && o.status.Some? && !Permanent(o.status.value) }

  /** No answer at all: the request may or may not have reached the provider. */
  predicate NoAnswer(o: Outcome) { !o.ok && o.status.None? }

  function Verdict(o: Outcome): Attempt { Attempt(o.ok, o.status, NoAnswer(o)) }

  /** The attempt recorded when no call was made. */
  const NOT_SENT := Attempt(false, None, false)

  function Pow2(n: nat): nat { if n == 0 then 1 else 2 * Pow2(n - 1) }

  /** What has been slept after k retried refusals, each wait twice the one before. */
  function Backoff(k: nat): real { (Pow2(k) - 1) as real / 2.0 }

  lemma BackoffStep(k: nat)
    ensures Backoff(0) == 0.0 && Backoff(k + 1) == Backoff(k) + Pow2(k) as real * 0.5
  {
  }

  /** The first wait is half a second, and every further one twice the one before. */
  lemma BackoffDoubles(k: nat)
    ensures Backoff(0) == 0.0 && Backoff(1) == 0.5
    ensures Backoff(k + 2) - Backoff(k + 1) == 2.0 * (Backoff(k + 1) - Backoff(k))
  {
    BackoffStep(0);
    BackoffStep(k);
    BackoffStep(k + 1);
    hide Backoff;
  }

  function CallsFrom(stream: Stream, pos: nat, left: nat): (n: nat)
    ensures 1 <= n <= left + 1
    decreases left
  {
    if !Retryable(stream(pos)) || left == 0 then 1 else 1 + CallsFrom(stream, pos + 1, left - 1)
  }

  /** How many calls one endpoint costs, and what is concluded from them. */
  function RetryCalls(stream: Stream, pos: nat, maxRetries: int): nat {
    if maxRetries < 0 then 0 else CallsFrom(stream, pos, maxRetries)
  }

  function RetryAttempt(stream: Stream, pos: nat, maxRetries: int): Attempt {
    if maxRetries < 0 then NOT_SENT
    else Verdict(stream(pos + CallsFrom(stream, pos, maxRetries) - 1))
  }

  /** k calls are exactly what a retry budget of maxRetries allows: all but the last
      were retryable, and the last was not unless the budget is used up. */
  ghost predicate RetryShape(stream: Stream, pos: nat, maxRetries: nat, k: nat) {
    && 1 <= k <= maxRetries + 1
    && (forall j :: pos <= j < pos + k - 1 ==> Retryable(stream(j)))
    && (k <= maxRetries ==> !Retryable(stream(pos + k - 1)))
  }

  lemma {:induction false} CallsFromShape(stream: Stream, pos: nat, left: nat)
    ensures RetryShape(stream, pos, left, CallsFrom(stream, pos, left))
    decreases left
  {
    if Retryable(stream(pos)) && left > 0 {
      CallsFromShape(stream, pos + 1, left - 1);
    }
  }

  /** The shape leaves no choice, so the number of calls is the one the recursion gives. */
  lemma ShapeDetermines(stream: Stream, pos: nat, maxRetries: nat, k: nat)
    requires RetryShape(stream, pos, maxRetries, k)
    ensures k == CallsFrom(stream, pos, maxRetries)
  {
    CallsFromShape(stream, pos, maxRetries);
    var n := CallsFrom(stream, pos, maxRetries);
    var lastOfK: nat, lastOfN: nat := pos + k - 1, pos + n - 1;
    assert k < n ==> Retryable(stream(lastOfK));
    assert n < k ==> Retryable(stream(lastOfN));
  }

  /** Only the last call of an endpoint can have been delivered: every earlier one
      was refused with a status. */
  lemma OnlyLastCallMayDeliver(stream: Stream, pos: nat, maxRetries: int, j: nat)
    requires j < RetryCalls(stream, pos, maxRetries)
    requires stream(pos + j).ok || NoAnswer(stream(pos + j))
    ensures j == RetryCalls(stream, pos, maxRetries) - 1
    ensures RetryAttempt(stream, pos, maxRetries) == Verdict(stream(pos + j))
  {
    CallsFromShape(stream, pos, maxRetries);
    assert j < RetryCalls(stream, pos, maxRetries) - 1 ==> Retryable(stream(pos + j));
  }

  /** Nothing follows a call that was accepted, got no answer, or was refused with 400, 404 or 410. */
  lemma FinalAnswerIsLast(stream: Stream, pos: nat, maxRetries: int, j: nat)
    requires j < RetryCalls(stream, pos, maxRetries)
    requires stream(pos + j).ok || stream(pos + j).status in {None, Some(400), Some(404), Some(410)}
    ensures j == RetryCalls(stream, pos, maxRetries) - 1
  {
    CallsFromShape(stream, pos, maxRetries);
    assert j < RetryCalls(stream, pos, maxRetries) - 1 ==> Retryable(stream(pos + j));
  }

  /** A refusal with any other status is followed by another call while the budget lasts. */
  lemma OtherRefusalIsRetried(stream: Stream, pos: nat, maxRetries: int, j: nat)
    requires j < RetryCalls(stream, pos, maxRetries) && j < maxRetries
    requires !stream(pos + j).ok && stream(pos + j).status !in {None, Some(400), Some(404), Some(410)}
    ensures j + 1 < RetryCalls(stream, pos, maxRetries)
  {
    CallsFromShape(stream, pos, maxRetries);
    hide CallsFrom;
    var n := RetryCalls(stream, pos, maxRetries);
    var last := pos + n - 1;
    assert n <= maxRetries ==> !Retryable(stream(last));
    assert Retryable(stream(pos + j));
    assert j == n - 1 ==> last == pos + j;
  }

  /** Both rules, call by call: from the answers alone one can tell which call is the last. */
  ghost predicate AnswersDecide(stream: Stream, start: nat, end: nat, maxRetries: int) {
    forall j :: start <= j < end ==>
      if stream(j).ok || stream(j).status.None? || stream(j).status.value in {400, 404, 410} then j == end - 1
      else j < end - 1 || j == start + maxRetries
  }

  lemma RetryDecides(stream: Stream, pos: nat, maxRetries: int)
    ensures AnswersDecide(stream, pos, pos + RetryCalls(stream, pos, maxRetries), maxRetries)
  {
    hide RetryCalls;
    var n := RetryCalls(stream, pos, maxRetries);
    forall j | pos <= j < pos + n
      ensures if stream(j).ok || stream(j).status.None? || stream(j).status.value in {400, 404, 410}
              then j == pos + n - 1
              else j < pos + n - 1 || j == pos + maxRetries
    {
      var k: nat := j - pos;
      assert stream(pos + k) == stream(j);
      if stream(j).ok || stream(j).status in {None, Some(400), Some(404), Some(410)} {
        FinalAnswerIsLast(stream, pos, maxRetries, k);
      } else if k < maxRetries {
        OtherRefusalIsRetried(stream, pos, maxRetries, k);
      } else {
        CallsWithin(stream, pos, maxRetries);
      }
    }
  }

  lemma CallsWithin(stream: Stream, pos: nat, maxRetries: int)
    ensures RetryCalls(stream, pos, maxRetries) <= if maxRetries < 0 then 0 else maxRetries + 1
  {
  }

  class Provider {
    const stream: Stream
    var made: nat
    var sent: seq<Sent>

    constructor (stream: Stream)
      ensures this.stream == stream && made == 0 && sent == []
    {
      this.stream := stream;
      made := 0;
      sent := [];
    }

    method SendAsync(hash: Hash) returns (o: Outcome)
      modifies this
      ensures made == old(made) + 1 && o == stream(old(made)) && sent == old(sent) + [Sent(hash, o)]
    {
      o := stream(made);
      made := made + 1;
      sent := sent + [Sent(hash, o)];
    }
  }

  lemma NothingSent(before: seq<Sent>, hash: Hash, stream: Stream, pos: nat)
    ensures before + SentCalls(hash, stream, pos, 0) == before
  {
  }

  lemma SentOneMore(hash: Hash, stream: Stream, pos: nat, n: nat)
    ensures SentCalls(hash, stream, pos, n + 1) == SentCalls(hash, stream, pos, n) + [Sent(hash, stream(pos + n))]
  {
  }

  /** The retry loop. slept is the backoff it waited for: (2^k - 1)/2 seconds after k
      retried refusals. */
  method SendWithRetry(provider: Provider, hash: Hash, maxRetries: int) returns (attempt: Attempt, slept: real)
    modifies provider
    ensures maxRetries < 0 ==> provider.made == old(provider.made) && attempt == NOT_SENT && slept == 0.0
    ensures maxRetries >= 0 ==>
      var k := provider.made - old(provider.made);
      && k >= 1
      && RetryShape(provider.stream, old(provider.made), maxRetries, k)
      && attempt == Verdict(provider.stream(provider.made - 1))
      && slept == Backoff(k - 1)
    ensures provider.made == old(provider.made) + RetryCalls(provider.stream, old(provider.made), maxRetries)
    ensures var n := RetryCalls(provider.stream, old(provider.made), maxRetries);
      provider.sent == old(provider.sent) + SentCalls(hash, provider.stream, old(provider.made), n)
    ensures attempt == RetryAttempt(provider.stream, old(provider.made), maxRetries)
    ensures maxRetries >= 0 ==>
      var o := provider.stream(provider.made - 1);
      attempt == Attempt(o.ok, o.status, !o.ok && o.status == None)
    ensures AnswersDecide(provider.stream, old(provider.made), provider.made, maxRetries)
  {
    hide AnswersDecide, CallsFrom, SentCalls, Backoff;
    RetryDecides(provider.stream, provider.made, maxRetries);
    NothingSent(provider.sent, hash, provider.stream, provider.made);
    var status: Option<int> := None;
    slept := 0.0;
    BackoffStep(0);
    var k := 0;
    while k < maxRetries + 1
      invariant 0 <= k && (maxRetries >= 0 ==> k <= maxRetries + 1)
      invariant maxRetries < 0 ==> k == 0 && slept == 0.0
      invariant provider.made == old(provider.made) + k
      invariant provider.sent == old(provider.sent) + SentCalls(hash, provider.stream, old(provider.made), k)
      invariant forall j :: old(provider.made) <= j < provider.made ==> Retryable(provider.stream(j))
      invariant k == 0 ==> status == None
      invariant k > 0 ==> status == provider.stream(provider.made - 1).status
      invariant k <= maxRetries ==> slept == Backoff(k)
      invariant k == maxRetries + 1 && k > 0 ==> slept == Backoff(k - 1)
    {
      SentOneMore(hash, provider.stream, old(provider.made), k);
      Assoc(old(provider.sent), SentCalls(hash, provider.stream, old(provider.made), k),
            [Sent(hash, provider.stream(provider.made))]);
      var o := provider.SendAsync(hash);
      status := o.status;
      if o.ok || status.None? || Permanent(status.value) {
        attempt := if o.ok then Attempt(true, status, false)
                   else if status.None? then Attempt(false, None, true)
                   else Attempt(false, status, false);
        ShapeDetermines(provider.stream, old(provider.made), maxRetries, k + 1);
        return;
      }
      if k < maxRetries {
        BackoffStep(k);
        slept := slept + Pow2(k) as real * 0.5;
      }
      k := k + 1;
    }
    attempt := Attempt(false, status, false);
    if maxRetries >= 0 {
      ShapeDetermines(provider.stream, old(provider.made), maxRetries, k);
    }
  }
}
