/** Event RSVPs: capacity, waitlist and promotion on cancel. */
module Rsvps {
  import opened Prelude

  datatype Status = Going | Waitlist | Cancel

  datatype Key = Key(member: int, event: int)

  datatype Rsvp = Rsvp(status: Status, createdAt: int)

  type Rows = map<Key, Rsvp>

  datatype RsvpError = EventNotFound | MemberNotFound | RsvpExists

  function GoingSet(rows: Rows, e: int): set<Key> { set k | k in rows && k.event == e && rows[k].status == Going }

  function WaitingSet(rows: Rows, e: int): set<Key> { set k | k in rows && k.event == e && rows[k].status == Waitlist }

  function GoingCount(rows: Rows, e: int): nat { |GoingSet(rows, e)| }

  /** 'going' becomes 'waitlist' when the event is full, not counting the requester's own seat. */
  function Normalize(rows: Rows, e: int, capacity: int, requested: Status, existing: Option<Status>): Status {
    if requested != Going then requested
    else if GoingCount(rows, e) - (if existing == Some(Going) then 1 else 0) >= capacity then Waitlist
    else Going
  }

  ghost predicate FirstInLine(rows: Rows, e: int, k: Key) {
    k in WaitingSet(rows, e) && forall j :: j in WaitingSet(rows, e) ==> rows[k].createdAt <= rows[j].createdAt
  }

  function Promoted(rows: Rows, k: Key): Rows
    requires k in rows
  {
    rows[k := rows[k].(status := Going)]
  }

  /** Some oldest waitlister, if there is one, is promoted; nothing else changes. */
  ghost predicate PromoteStep(rows: Rows, after: Rows, e: int) {
    if WaitingSet(rows, e) == {} then after == rows
    else exists k :: FirstInLine(rows, e, k) && after == Promoted(rows, k)
  }

  /** The requester's own row after upsert, before any promotion. */
  function OwnRow(rows: Rows, capacity: int, e: int, m: int, requested: Status, now: int): Rows {
    var k := Key(m, e);
    if k in rows then rows[k := rows[k].(status := Normalize(rows, e, capacity, requested, Some(rows[k].status)))]
    else rows[k := Rsvp(Normalize(rows, e, capacity, requested, None), now)]
  }

  /** upsert_rsvp_status: only a cancel of an existing RSVP looks at the waitlist. When the worker
      dies between the two commits the promotion is lost. */
  ghost predicate UpsertStep(rows: Rows, after: Rows, capacity: int, e: int, m: int, requested: Status, now: int,
      interrupted: bool)
  {
    var own := OwnRow(rows, capacity, e, m, requested, now);
    if requested == Cancel && Key(m, e) in rows && !interrupted then PromoteStep(own, after, e) else after == own
  }

  datatype Request =
    | Upsert(event: int, member: int, status: Status, now: int, interrupted: bool)
    | Create(event: int, member: int, status: Status, now: int)

  /** One request; unknown events and members, and creating twice, change nothing. */
  ghost predicate Next(caps: map<int, int>, members: set<int>, rows: Rows, r: Request, after: Rows) {
    if r.event !in caps || r.member !in members then after == rows
    else match r
      case Upsert(e, m, status, now, interrupted) => UpsertStep(rows, after, caps[e], e, m, status, now, interrupted)
      case Create(e, m, status, now) =>
        if Key(m, e) in rows then after == rows else after == OwnRow(rows, caps[e], e, m, status, now)
  }

  // ---- one row changed ----

  lemma GoingAfterUpdate(rows: Rows, k: Key, r: Rsvp, e: int)
    ensures GoingCount(rows[k := r], e) == GoingCount(rows, e)
      + (if k.event == e && r.status == Going then 1 else 0)
      - (if k.event == e && k in rows && rows[k].status == Going then 1 else 0)
  {
    SetSize(GoingSet(rows, e), GoingSet(rows[k := r], e), k);
  }

  /** A promotion adds one going row of its event, if anyone waits. */
  lemma GoingAfterPromote(rows: Rows, after: Rows, e: int, f: int)
    requires PromoteStep(rows, after, e)
    ensures GoingCount(after, f) == GoingCount(rows, f) + (if e == f && WaitingSet(rows, e) != {} then 1 else 0)
  {
    if WaitingSet(rows, e) != {} {
      var k :| FirstInLine(rows, e, k) && after == Promoted(rows, k);
      GoingAfterUpdate(rows, k, rows[k].(status := Going), f);
    }
  }

  // ---- capacity ----

  function Seats(capacity: int): nat { if capacity < 0 then 0 else capacity }

  /** A cancel by a member who has an RSVP for the event but was not going. */
  predicate IdleCancel(rows: Rows, r: Request) {
    r.Upsert? && r.status == Cancel && Key(r.member, r.event) in rows && rows[Key(r.member, r.event)].status != Going
  }

  lemma OwnRowGoing(rows: Rows, capacity: int, e: int, m: int, requested: Status, now: int, f: int)
    ensures var own := OwnRow(rows, capacity, e, m, requested, now);
      && (f != e ==> GoingCount(own, f) == GoingCount(rows, f))
      && (GoingCount(own, e) <= GoingCount(rows, e) || GoingCount(own, e) <= capacity)
      && (requested == Cancel && Key(m, e) in rows ==>
            GoingCount(own, e) == GoingCount(rows, e) - (if rows[Key(m, e)].status == Going then 1 else 0))
  {
    var k := Key(m, e);
    var own := OwnRow(rows, capacity, e, m, requested, now);
    GoingAfterUpdate(rows, k, own[k], f);
    GoingAfterUpdate(rows, k, own[k], e);
  }

  /** A step grows the going list beyond the seats only by one, and only for an idle cancel. */
  lemma CapacityStep(caps: map<int, int>, members: set<int>, rows: Rows, r: Request, after: Rows, e: int)
    requires Next(caps, members, rows, r, after) && e in caps
    ensures GoingCount(after, e) <= GoingCount(rows, e) || GoingCount(after, e) <= Seats(caps[e])
         || (r.event == e && IdleCancel(rows, r) && GoingCount(after, e) == GoingCount(rows, e) + 1)
  {
    if r.event in caps && r.member in members {
      OwnRowGoing(rows, caps[r.event], r.event, r.member, r.status, r.now, e);
      if r.Upsert? && r.status == Cancel && Key(r.member, r.event) in rows && !r.interrupted {
        GoingAfterPromote(OwnRow(rows, caps[r.event], r.event, r.member, r.status, r.now), after, r.event, e);
      }
    }
  }

  ghost predicate Run(caps: map<int, int>, members: set<int>, states: seq<Rows>, requests: seq<Request>) {
    && |states| == |requests| + 1
    && states[0] == map[]
    && forall i :: 0 <= i < |requests| ==> Next(caps, members, states[i], requests[i], states[i + 1])
  }

  /** How many idle cancels event e saw among the first n requests. */
  function IdleCancels(states: seq<Rows>, requests: seq<Request>, e: int, n: nat): nat
    requires n <= |requests| && |states| == |requests| + 1
  {
    if n == 0 then 0
    else IdleCancels(states, requests, e, n - 1)
         + (if requests[n - 1].event == e && IdleCancel(states[n - 1], requests[n - 1]) then 1 else 0)
  }

  lemma RunStep(caps: map<int, int>, members: set<int>, states: seq<Rows>, requests: seq<Request>, i: nat)
    requires Run(caps, members, states, requests) && i < |requests|
    ensures Next(caps, members, states[i], requests[i], states[i + 1])
  {
    hide Next;
  }

  /** The true capacity bound: seats plus one for every cancel by a member who was not going. */
  lemma {:induction false} CapacityBound(
    caps: map<int, int>, members: set<int>, states: seq<Rows>, requests: seq<Request>, e: int, n: nat)
    requires Run(caps, members, states, requests) && e in caps && n <= |requests|
    ensures GoingCount(states[n], e) <= Seats(caps[e]) + IdleCancels(states, requests, e, n)
  {
    if n == 0 {
      assert GoingSet(states[0], e) == {};
    } else {
      hide Next, GoingCount, IdleCancel, Seats;
      CapacityBound(caps, members, states, requests, e, n - 1);
      RunStep(caps, members, states, requests, n - 1);
      hide Run;
      CapacityStep(caps, members, states[n - 1], requests[n - 1], states[n], e);
    }
  }

  lemma {:induction false} NoIdleCancels(states: seq<Rows>, requests: seq<Request>, e: int, n: nat)
    requires n <= |requests| && |states| == |requests| + 1
    requires forall i :: 0 <= i < n && requests[i].event == e ==> !IdleCancel(states[i], requests[i])
    ensures IdleCancels(states, requests, e, n) == 0
  {
    if n > 0 {
      NoIdleCancels(states, requests, e, n - 1);
    }
  }

  /** So if only going members cancel, the event is never overbooked. */
  lemma NeverOverbooked(
    caps: map<int, int>, members: set<int>, states: seq<Rows>, requests: seq<Request>, e: int, n: nat)
    requires Run(caps, members, states, requests) && e in caps && n <= |requests|
    requires forall i :: 0 <= i < n && requests[i].event == e ==> !IdleCancel(states[i], requests[i])
    ensures GoingCount(states[n], e) <= Seats(caps[e])
  {
    CapacityBound(caps, members, states, requests, e, n);
    NoIdleCancels(states, requests, e, n);
  }

  /** Exactly when a step overbooks an event that was within its seats: the event is full, and
      a member who was not going cancels while somebody else waits. */
  lemma OverbooksIff(caps: map<int, int>, members: set<int>, rows: Rows, r: Request, after: Rows)
    requires Next(caps, members, rows, r, after) && r.event in caps && r.member in members
    requires GoingCount(rows, r.event) <= Seats(caps[r.event])
    ensures GoingCount(after, r.event) > Seats(caps[r.event]) <==>
      && IdleCancel(rows, r) && !r.interrupted
      && GoingCount(rows, r.event) == Seats(caps[r.event])
      && WaitingSet(rows, r.event) - {Key(r.member, r.event)} != {}
  {
    CapacityStep(caps, members, rows, r, after, r.event);
    if IdleCancel(rows, r) && !r.interrupted {
      var own := OwnRow(rows, caps[r.event], r.event, r.member, r.status, r.now);
      OwnRowGoing(rows, caps[r.event], r.event, r.member, r.status, r.now, r.event);
      GoingAfterPromote(own, after, r.event, r.event);
      assert WaitingSet(own, r.event) == WaitingSet(rows, r.event) - {Key(r.member, r.event)};
    } else if IdleCancel(rows, r) {
      OwnRowGoing(rows, caps[r.event], r.event, r.member, r.status, r.now, r.event);
    }
  }

  /** It does happen: with one seat, three members ask to go and a waitlister cancels. */
  lemma OverbookingExample()
    ensures var rows: Rows :=
        map[Key(1, 9) := Rsvp(Going, 1), Key(2, 9) := Rsvp(Waitlist, 2), Key(3, 9) := Rsvp(Waitlist, 3)];
      var after: Rows := map[Key(1, 9) := Rsvp(Going, 1), Key(2, 9) := Rsvp(Going, 2), Key(3, 9) := Rsvp(Cancel, 3)];
      && Next(map[9 := 1], {1, 2, 3}, rows, Upsert(9, 3, Cancel, 4, false), after)
      && GoingCount(rows, 9) == 1 && GoingCount(after, 9) == 2
  {
    var rows: Rows := map[Key(1, 9) := Rsvp(Going, 1), Key(2, 9) := Rsvp(Waitlist, 2), Key(3, 9) := Rsvp(Waitlist, 3)];
    var after: Rows := map[Key(1, 9) := Rsvp(Going, 1), Key(2, 9) := Rsvp(Going, 2), Key(3, 9) := Rsvp(Cancel, 3)];
    var own := OwnRow(rows, 1, 9, 3, Cancel, 4);
    assert WaitingSet(own, 9) == {Key(2, 9)};
    assert FirstInLine(own, 9, Key(2, 9)) && after == Promoted(own, Key(2, 9));
    assert GoingSet(rows, 9) == {Key(1, 9)} && GoingSet(after, 9) == {Key(1, 9), Key(2, 9)};
  }

  /** Asking again to go never costs a going member the seat unless the event is overbooked. */
  lemma RepeatKeepsSeat(rows: Rows, capacity: int, e: int, m: int, now: int)
    requires Key(m, e) in rows && rows[Key(m, e)].status == Going
    ensures OwnRow(rows, capacity, e, m, Going, now)[Key(m, e)].status == Going <==> GoingCount(rows, e) <= capacity
  {
  }

  // ---- promotion and conservation ----

  /** When a going member cancels and somebody waits, the number going stays the same: exactly
      one row moves from waitlist to going, never the canceller's, and it is an oldest one. */
  lemma CancelHandsOverSeat(rows: Rows, after: Rows, capacity: int, e: int, m: int, now: int)
    requires UpsertStep(rows, after, capacity, e, m, Cancel, now, false)
    requires Key(m, e) in rows && rows[Key(m, e)].status == Going && WaitingSet(rows, e) != {}
    ensures GoingCount(after, e) == GoingCount(rows, e)
    ensures exists k ::
      && k != Key(m, e) && FirstInLine(rows, e, k)
      && after == rows[Key(m, e) := rows[Key(m, e)].(status := Cancel)][k := rows[k].(status := Going)]
  {
    var own := OwnRow(rows, capacity, e, m, Cancel, now);
    assert WaitingSet(own, e) == WaitingSet(rows, e);
    OwnRowGoing(rows, capacity, e, m, Cancel, now, e);
    GoingAfterPromote(own, after, e, e);
    var k :| FirstInLine(own, e, k) && after == Promoted(own, k);
    assert k != Key(m, e) && own[k] == rows[k];
    assert FirstInLine(rows, e, k);
  }

  /** Rows never disappear or change their age, and a request touches its own event only. */
  lemma RowsPersist(caps: map<int, int>, members: set<int>, rows: Rows, r: Request, after: Rows)
    requires Next(caps, members, rows, r, after)
    ensures rows.Keys <= after.Keys && after.Keys <= rows.Keys + {Key(r.member, r.event)}
    ensures forall k :: k in rows ==> after[k].createdAt == rows[k].createdAt
    ensures forall k :: k in rows && k.event != r.event ==> after[k] == rows[k]
  {
  }

  lemma {:induction false} RowsPersistOverRun(
    caps: map<int, int>, members: set<int>, states: seq<Rows>, requests: seq<Request>, i: nat, j: nat)
    requires Run(caps, members, states, requests) && i <= j <= |requests|
    ensures states[i].Keys <= states[j].Keys
    ensures forall k :: k in states[i] ==> states[j][k].createdAt == states[i][k].createdAt
  {
    if i < j {
      RowsPersistOverRun(caps, members, states, requests, i, j - 1);
      RowsPersist(caps, members, states[j - 1], requests[j - 1], states[j]);
    }
  }

  // ---- one request in plain terms ----

  /** The other members who are going to the event. */
  function OthersGoing(rows: Rows, k: Key): set<Key> {
    set j | j in rows && j.event == k.event && j != k && rows[j].status == Going
  }

  function StatusOf(rows: Rows, k: Key): Option<Status> { if k in rows then Some(rows[k].status) else None }

  /** The other members on the event's waitlist. */
  function OthersWaiting(rows: Rows, k: Key): set<Key> {
    set j | j in rows && j.event == k.event && j != k && rows[j].status == Waitlist
  }

  /** What a request does. Unknown events and members, and a second creation, change nothing. Who asks to go is
      going iff fewer others than there are seats are, and else waits; any other status is stored as asked. No
      other row changes, except that the uninterrupted cancel of an existing RSVP makes one of the oldest others
      on the waitlist going, if there is any. */
  ghost predicate RequestTold(caps: map<int, int>, members: set<int>, rows: Rows, r: Request, after: Rows) {
    var k := Key(r.member, r.event);
    if r.event !in caps || r.member !in members || (r.Create? && k in rows) then after == rows
    else
      var status := if r.status != Going then r.status
                    else if |OthersGoing(rows, k)| < caps[r.event] then Going else Waitlist;
      var own := rows[k := Rsvp(status, if k in rows then rows[k].createdAt else r.now)];
      if r.Upsert? && r.status == Cancel && k in rows && !r.interrupted && OthersWaiting(rows, k) != {} then
        exists j :: j in OthersWaiting(rows, k) && OldestOther(rows, k, j)
                    && after == own[j := Rsvp(Going, rows[j].createdAt)]
      else after == own
  }

  ghost predicate OldestOther(rows: Rows, k: Key, j: Key)
    requires j in rows
  {
    forall i :: i in OthersWaiting(rows, k) ==> rows[j].createdAt <= rows[i].createdAt
  }

  lemma SeatsMeaning(rows: Rows, k: Key)
    ensures GoingCount(rows, k.event) ==
      |OthersGoing(rows, k)| + (if k in rows && rows[k].status == Going then 1 else 0)
  {
    SetSize(OthersGoing(rows, k), GoingSet(rows, k.event), k);
  }

  lemma OwnRowMeaning(rows: Rows, capacity: int, e: int, m: int, requested: Status, now: int)
    ensures var k := Key(m, e);
      var status := if requested != Going then requested
                    else if |OthersGoing(rows, k)| < capacity then Going else Waitlist;
      OwnRow(rows, capacity, e, m, requested, now)
        == rows[k := Rsvp(status, if k in rows then rows[k].createdAt else now)]
  {
    SeatsMeaning(rows, Key(m, e));
    hide OthersGoing, GoingCount;
  }

  /** Every step of the run relation is told so. */
  lemma NextMeaning(caps: map<int, int>, members: set<int>, rows: Rows, r: Request, after: Rows)
    requires Next(caps, members, rows, r, after)
    ensures RequestTold(caps, members, rows, r, after)
  {
    if r.event in caps && r.member in members {
      var k := Key(r.member, r.event);
      OwnRowMeaning(rows, caps[r.event], r.event, r.member, r.status, r.now);
      var own := OwnRow(rows, caps[r.event], r.event, r.member, r.status, r.now);
      hide OwnRow, OthersGoing;
      if r.Upsert? && r.status == Cancel && k in rows && !r.interrupted {
        assert OthersWaiting(rows, k) == WaitingSet(own, r.event);
        if WaitingSet(own, r.event) != {} {
          var j :| FirstInLine(own, r.event, j) && after == Promoted(own, j);
          assert j in OthersWaiting(rows, k) && OldestOther(rows, k, j);
        }
      }
    }
  }

  // ---- the service ----

  class RsvpTable {
    var rows: Rows
    const caps: map<int, int>
    const members: set<int>

    constructor (caps: map<int, int>, members: set<int>)
      ensures rows == map[] && this.caps == caps && this.members == members
    {
      rows := map[];
      this.caps := caps;
      this.members := members;
    }

    method CountGoing(e: int) returns (n: nat)
      ensures n == GoingCount(rows, e)
    {
      n := 0;
      var rest := rows.Keys;
      assert GoingSet(rows, e) - rest == {};
      while rest != {}
        invariant rest <= rows.Keys
        invariant n == |GoingSet(rows, e) - rest|
        decreases rest
      {
        var k :| k in rest;
        ghost var seen := GoingSet(rows, e) - rest;
        rest := rest - {k};
        if k.event == e && rows[k].status == Going {
          assert GoingSet(rows, e) - rest == seen + {k};
          n := n + 1;
        } else {
          assert GoingSet(rows, e) - rest == seen;
        }
      }
      assert GoingSet(rows, e) - rest == GoingSet(rows, e);
    }

    method NormalizeStatus(e: int, capacity: int, requested: Status, existing: Option<Status>) returns (s: Status)
      ensures s == Normalize(rows, e, capacity, requested, existing)
      ensures requested != Going ==> s == requested
      ensures requested == Going ==> s in {Going, Waitlist}
      ensures forall m :: requested == Going && existing == StatusOf(rows, Key(m, e)) ==>
        (s == Going <==> |OthersGoing(rows, Key(m, e))| < capacity)
    {
      forall m | existing == StatusOf(rows, Key(m, e))
        ensures |OthersGoing(rows, Key(m, e))| == GoingCount(rows, e) - (if existing == Some(Going) then 1 else 0)
      {
        SeatsMeaning(rows, Key(m, e));
      }
      hide OthersGoing;
      if requested != Going {
        return requested;
      }
      var effective: int := CountGoing(e);
      if existing == Some(Going) {
        effective := effective - 1;
      }
      s := if effective >= capacity then Waitlist else Going;
    }

    /** SELECT ... WHERE waitlist ORDER BY created_at LIMIT 1, then set it going. */
    method PromoteWaitlistCandidate(e: int)
      modifies this`rows
      ensures PromoteStep(old(rows), rows, e)
    {
      var best: Option<Key> := None;
      var rest := rows.Keys;
      while rest != {}
        invariant rest <= rows.Keys
        invariant best.None? ==> WaitingSet(rows, e) <= rest
        invariant best.Some? ==> best.value in WaitingSet(rows, e)
        invariant best.Some? ==>
          forall k :: k in WaitingSet(rows, e) && k !in rest ==> rows[best.value].createdAt <= rows[k].createdAt
        decreases rest
      {
        var k :| k in rest;
        rest := rest - {k};
        if k.event == e && rows[k].status == Waitlist
           && (best.None? || rows[k].createdAt < rows[best.value].createdAt) {
          best := Some(k);
        }
      }
      if best.Some? {
        assert FirstInLine(rows, e, best.value);
        rows := Promoted(rows, best.value);
      }
    }

    /** With stops the worker ends after the first commit, before any promotion. */
    method UpsertRsvpStatus(e: int, m: int, status: Status, now: int, stops: bool) returns (error: Option<RsvpError>)
      modifies this`rows
      ensures Next(caps, members, old(rows), Upsert(e, m, status, now, stops), rows)
      ensures RequestTold(caps, members, old(rows), Upsert(e, m, status, now, stops), rows)
      ensures error == if e !in caps then Some(EventNotFound) else if m !in members then Some(MemberNotFound) else None
    {
      if e !in caps {
        return Some(EventNotFound);
      }
      if m !in members {
        return Some(MemberNotFound);
      }
      var k := Key(m, e);
      if k !in rows {
        var final := NormalizeStatus(e, caps[e], status, None);
        rows := rows[k := Rsvp(final, now)];
      } else {
        var final := NormalizeStatus(e, caps[e], status, Some(rows[k].status));
        rows := rows[k := rows[k].(status := final)];
        if final == Cancel && !stops {
          PromoteWaitlistCandidate(e);
        }
      }
      NextMeaning(caps, members, old(rows), Upsert(e, m, status, now, stops), rows);
      error := None;
    }

    method CreateRsvp(e: int, m: int, status: Status, now: int) returns (error: Option<RsvpError>)
      modifies this`rows
      ensures Next(caps, members, old(rows), Create(e, m, status, now), rows)
      ensures RequestTold(caps, members, old(rows), Create(e, m, status, now), rows)
      ensures error == if e !in caps then Some(EventNotFound) else if m !in members then Some(MemberNotFound)
                       else if Key(m, e) in old(rows) then Some(RsvpExists) else None
    {
      if e !in caps {
        return Some(EventNotFound);
      }
      if m !in members {
        return Some(MemberNotFound);
      }
      var final := NormalizeStatus(e, caps[e], status, None);
      if Key(m, e) in rows {
        return Some(RsvpExists);
      }
      rows := rows[Key(m, e) := Rsvp(final, now)];
      NextMeaning(caps, members, old(rows), Create(e, m, status, now), rows);
      error := None;
    }
  }
}
