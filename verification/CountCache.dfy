/** The member-count cache, an ordered dictionary with a time limit and at most 64 entries, and
    the two unbounded tables it stands for: the last value stored for every key, and all keys in
    order of their last use.

    A call looks the key up, awaits the query on a miss and then stores the answer. Other calls
    may run during the await, so a run is a sequence of lookups and stores in any order. */
module CountCache {
  import opened Prelude
  import opened FilterKeys
  import MemberQuery

  const TTL := 30.0
  const MAX := 64

  type Key = seq<Item>

  datatype Entry = Entry(key: Key, at: real, count: nat)

  /** Dictionary order, oldest first. */
  type Cache = seq<Entry>

  /** Store carries the time read before its query started. */
  datatype Event = Look(filters: Filters, at: real) | Store(filters: Filters, at: real, count: nat)

  // ---- ordered-dictionary operations ----

  function Delete<T(==)>(s: seq<T>, p: nat): seq<T> { if p < |s| then s[..p] + s[p + 1..] else s }

  function Keys(cache: Cache): (keys: seq<Key>)
    ensures |keys| == |cache| && forall i :: 0 <= i < |cache| ==> keys[i] == cache[i].key
  {
    seq(|cache|, i requires 0 <= i < |cache| => cache[i].key)
  }

  function At(cache: Cache, key: Key): nat { PositionOf(Keys(cache), key) }

  function Lookup(cache: Cache, key: Key): Option<Entry> {
    var p := At(cache, key);
    if p < |cache| then Some(cache[p]) else None
  }

  function Assign(cache: Cache, e: Entry): Cache {
    var p := At(cache, e.key);
    if p < |cache| then cache[p := e] else cache + [e]
  }

  function MoveToEnd(cache: Cache, key: Key): Cache {
    var p := At(cache, key);
    if p < |cache| then Delete(cache, p) + [cache[p]] else cache
  }

  function PopOverflow(cache: Cache): Cache { if |cache| > MAX then cache[1..] else cache }

  predicate Hits(cache: Cache, key: Key, now: real) {
    var found := Lookup(cache, key);
    found.Some? && now - found.value.at < TTL
  }

  function Next(cache: Cache, e: Event): Cache {
    var key := KeyOf(e.filters);
    match e
    case Look(_, now) => if Hits(cache, key, now) then MoveToEnd(cache, key) else cache
    case Store(_, at, count) => PopOverflow(MoveToEnd(Assign(cache, Entry(key, at, count)), key))
  }

  function CacheAfter(events: seq<Event>): Cache {
    if |events| == 0 then [] else Next(CacheAfter(events[..|events| - 1]), events[|events| - 1])
  }

  // ---- the tables it stands for ----

  /** A store uses its key, and so does a lookup that hits; a lookup that misses does not. */
  predicate Uses(cache: Cache, e: Event) { e.Store? || Hits(cache, KeyOf(e.filters), e.at) }

  /** Every key ever used, in order of last use. */
  function Recent(events: seq<Event>): seq<Key> {
    if |events| == 0 then []
    else
      var before := events[..|events| - 1];
      var e := events[|events| - 1];
      if Uses(CacheAfter(before), e) then Used(Recent(before), KeyOf(e.filters)) else Recent(before)
  }

  function Used(recent: seq<Key>, key: Key): seq<Key> { Delete(recent, PositionOf(recent, key)) + [key] }

  /** The last entry stored for every key, however long ago. */
  function Stored(events: seq<Event>): map<Key, Entry> {
    if |events| == 0 then map[]
    else
      var before := Stored(events[..|events| - 1]);
      var e := events[|events| - 1];
      if e.Store? then before[KeyOf(e.filters) := Entry(KeyOf(e.filters), e.at, e.count)] else before
  }

  /** The last MAX elements. */
  function Newest<T>(s: seq<T>): seq<T> { if |s| > MAX then s[|s| - MAX..] else s }

  /** The cache is the newest MAX keys, each with its last stored entry. */
  ghost predicate Refines(cache: Cache, recent: seq<Key>, stored: map<Key, Entry>) {
    && Distinct(recent)
    && Keys(cache) == Newest(recent)
    && Backed(cache, stored)
  }

  ghost predicate Backed(cache: Cache, stored: map<Key, Entry>) {
    forall e :: e in cache ==> e.key in stored && stored[e.key] == e
  }

  lemma DeleteMeaning<T>(s: seq<T>, x: T)
    requires Distinct(s)
    ensures var d := Delete(s, PositionOf(s, x)); Distinct(d + [x]) && forall y :: y in d <==> y in s && y != x
  {
    hide PositionOf, Delete, Distinct;
    var p := PositionOf(s, x);
    if p < |s| {
      DeleteAt(s, p);
    } else {
      assert x !in s;
      DeleteAbsent(s, x);
    }
    DistinctAppend(Delete(s, p), x);
  }

  lemma DeleteAt<T>(s: seq<T>, p: nat)
    requires Distinct(s) && p < |s|
    ensures Distinct(Delete(s, p)) && forall y :: y in Delete(s, p) <==> y in s && y != s[p]
  {
    var d := Delete(s, p);
    assert forall i :: 0 <= i < |d| ==> d[i] == s[if i < p then i else i + 1];
    hide Delete;
    forall y | y in s && y != s[p]
      ensures y in d
    {
      var i :| 0 <= i < |s| && s[i] == y;
      assert d[if i < p then i else i - 1] == y;
    }
  }

  lemma DistinctAppend<T>(s: seq<T>, x: T)
    requires Distinct(s) && x !in s
    ensures Distinct(s + [x])
  {
  }

  lemma NewestConcat<T>(a: seq<T>, b: seq<T>)
    requires |b| >= MAX
    ensures Newest(a + b) == Newest(b)
  {
    assert (a + b)[|a| + |b| - MAX..] == b[|b| - MAX..];
  }

  lemma DeleteConcat<T>(a: seq<T>, b: seq<T>, p: nat)
    ensures p < |a| ==> Delete(a + b, p) == Delete(a, p) + b
    ensures p >= |a| ==> Delete(a + b, p) == a + Delete(b, p - |a|)
  {
    if p < |a| {
      var l, r := a[..p], a[p + 1..];
      assert (a + b)[..p] == l && (a + b)[p + 1..] == r + b;
      Assoc(l, r, b);
    } else if p < |a| + |b| {
      var l, r := b[..p - |a|], b[p - |a| + 1..];
      assert (a + b)[..p] == a + l && (a + b)[p + 1..] == r;
      Assoc(a, l, r);
    }
  }

  lemma UsedConcat(a: seq<Key>, b: seq<Key>, key: Key)
    requires key in a ==> key !in b
    ensures key in a ==> Used(a + b, key) == Delete(a, PositionOf(a, key)) + Used(b, key)
    ensures key !in a ==> Used(a + b, key) == a + Used(b, key)
  {
    hide PositionOf, Delete;
    PositionConcat(a, b, key);
    DeleteConcat(a, b, PositionOf(a + b, key));
    var q := PositionOf(b, key);
    if key in a {
      assert Delete(b, q) == b by { DeleteAbsent(b, key); }
      var d := Delete(a, PositionOf(a, key));
      Assoc(d, b, [key]);
    } else {
      var d := Delete(b, q);
      Assoc(a, d, [key]);
    }
  }

  lemma DeleteAbsent<T>(s: seq<T>, x: T)
    requires x !in s
    ensures Delete(s, PositionOf(s, x)) == s
  {
    hide PositionOf;
    assert PositionOf(s, x) == |s|;
  }

  lemma UsedSize(s: seq<Key>, key: Key)
    ensures |Used(s, key)| >= |s|
  {
  }

  /** Using a key keeps the newest keys the newest: the bounded list needs only what it holds. */
  lemma NewestUsed(recent: seq<Key>, key: Key)
    requires Distinct(recent)
    ensures Newest(Used(recent, key)) == Newest(Used(Newest(recent), key))
  {
    if |recent| > MAX {
      var a, b := recent[..|recent| - MAX], recent[|recent| - MAX..];
      assert recent == a + b;
      assert key in a ==> key !in b;
      UsedConcat(a, b, key);
      UsedSize(b, key);
      hide Used, Newest, Delete, PositionOf;
      NewestConcat(if key in a then Delete(a, PositionOf(a, key)) else a, Used(b, key));
      assert Newest(recent) == b by { NewestIsTail(recent); }
    }
  }

  lemma NewestIsTail<T>(s: seq<T>)
    requires |s| > MAX
    ensures Newest(s) == s[|s| - MAX..]
  {
  }

  lemma MoveKeys(cache: Cache, key: Key)
    requires At(cache, key) < |cache|
    ensures Keys(MoveToEnd(cache, key)) == Used(Keys(cache), key)
  {
  }

  lemma AssignKeys(cache: Cache, e: Entry)
    ensures At(Assign(cache, e), e.key) == At(cache, e.key) < |Assign(cache, e)|
    ensures At(cache, e.key) < |cache| ==> Keys(Assign(cache, e)) == Keys(cache)
    ensures At(cache, e.key) == |cache| ==> Keys(Assign(cache, e)) == Keys(cache) + [e.key]
  {
    var p := At(cache, e.key);
    if p < |cache| {
      assert Keys(cache[p := e]) == Keys(cache);
    } else {
      assert Keys(cache + [e]) == Keys(cache) + [e.key];
      assert e.key !in Keys(cache);
      PositionConcat(Keys(cache), [e.key], e.key);
    }
  }

  lemma UsedAppended(keys: seq<Key>, key: Key)
    requires key !in keys
    ensures Used(keys + [key], key) == Used(keys, key) == keys + [key]
  {
    PositionConcat(keys, [key], key);
    assert PositionOf(keys, key) == |keys| && PositionOf([key], key) == 0;
    assert Delete(keys + [key], |keys|) == keys;
  }

  lemma MoveElements(cache: Cache, key: Key)
    requires At(cache, key) < |cache|
    ensures SetOf(MoveToEnd(cache, key)) == SetOf(cache)
  {
    var p := At(cache, key);
    var l, r := cache[..p], cache[p + 1..];
    assert cache == l + [cache[p]] + r;
    hide At;
    SetOfConcat(l, [cache[p]]);
    SetOfConcat(l + [cache[p]], r);
    SetOfConcat(l, r);
    SetOfConcat(l + r, [cache[p]]);
  }

  lemma BackedElements(cache: Cache, other: Cache, stored: map<Key, Entry>)
    requires Backed(cache, stored) && SetOf(other) <= SetOf(cache)
    ensures Backed(other, stored)
  {
    assert forall e :: e in other ==> e in SetOf(other);
  }

  /** The answer of a hit is the stored entry, and a hit reorders as the recency list does. */
  lemma LookRefines(cache: Cache, recent: seq<Key>, stored: map<Key, Entry>, key: Key)
    requires Refines(cache, recent, stored) && At(cache, key) < |cache|
    ensures key in stored && Lookup(cache, key) == Some(stored[key])
    ensures Refines(MoveToEnd(cache, key), Used(recent, key), stored)
  {
    MoveKeys(cache, key);
    NewestUsed(recent, key);
    DeleteMeaning(recent, key);
    MoveElements(cache, key);
    assert cache[At(cache, key)] in cache;
    hide MoveToEnd, Backed;
    BackedElements(cache, MoveToEnd(cache, key), stored);
    assert Newest(Used(Keys(cache), key)) == Used(Keys(cache), key);
  }

  lemma StoreKeys(cache: Cache, e: Entry)
    requires |cache| <= MAX
    ensures Keys(PopOverflow(MoveToEnd(Assign(cache, e), e.key))) == Newest(Used(Keys(cache), e.key))
  {
    AssignKeys(cache, e);
    var c := Assign(cache, e);
    MoveKeys(c, e.key);
    if At(cache, e.key) == |cache| {
      assert e.key !in Keys(cache);
      UsedAppended(Keys(cache), e.key);
    }
    var moved := MoveToEnd(c, e.key);
    hide MoveToEnd, Used, Assign;
    assert Keys(moved) == Used(Keys(cache), e.key);
    assert |moved| > MAX ==> Keys(moved[1..]) == Keys(moved)[1..];
  }

  lemma StoreBacked(cache: Cache, stored: map<Key, Entry>, e: Entry)
    requires Backed(cache, stored) && Distinct(Keys(cache))
    ensures Backed(PopOverflow(MoveToEnd(Assign(cache, e), e.key)), stored[e.key := e])
  {
    AssignKeys(cache, e);
    var c := Assign(cache, e);
    AssignBacked(cache, stored, e);
    MoveElements(c, e.key);
    var moved := MoveToEnd(c, e.key);
    hide Backed, MoveToEnd, Assign;
    assert SetOf(PopOverflow(moved)) <= SetOf(moved);
    BackedElements(c, PopOverflow(moved), stored[e.key := e]);
  }

  lemma AssignBacked(cache: Cache, stored: map<Key, Entry>, e: Entry)
    requires Backed(cache, stored) && Distinct(Keys(cache))
    ensures Backed(Assign(cache, e), stored[e.key := e])
  {
    AssignKeys(cache, e);
    var p, c := At(cache, e.key), Assign(cache, e);
    assert p < |cache| ==> Keys(cache)[p] == e.key;
    assert forall i :: 0 <= i < |c| && i != p ==> c[i] == cache[i] && Keys(cache)[i] != e.key;
  }

  lemma StoreRefines(cache: Cache, recent: seq<Key>, stored: map<Key, Entry>, e: Entry)
    requires Refines(cache, recent, stored)
    ensures Refines(PopOverflow(MoveToEnd(Assign(cache, e), e.key)), Used(recent, e.key), stored[e.key := e])
  {
    hide Backed, PopOverflow, MoveToEnd, Assign;
    StoreKeys(cache, e);
    NewestUsed(recent, e.key);
    DeleteMeaning(recent, e.key);
    StoreBacked(cache, stored, e);
  }

  lemma {:induction false} CacheRefines(events: seq<Event>)
    ensures Refines(CacheAfter(events), Recent(events), Stored(events))
  {
    hide Refines, PopOverflow, MoveToEnd, Assign, Used;
    if |events| == 0 {
      EmptyRefines();
    } else {
      var before, e := events[..|events| - 1], events[|events| - 1];
      CacheRefines(before);
      var cache, key := CacheAfter(before), KeyOf(e.filters);
      if e.Store? {
        StoreRefines(cache, Recent(before), Stored(before), Entry(key, e.at, e.count));
      } else if Hits(cache, key, e.at) {
        LookRefines(cache, Recent(before), Stored(before), key);
      }
    }
  }

  lemma EmptyRefines()
    ensures Refines([], [], map[])
  {
  }

  // ---- what the tables mean ----

  /** The last store for key, or -1. */
  function LastStore(events: seq<Event>, key: Key): (i: int)
    ensures -1 <= i < |events|
    ensures i >= 0 ==> events[i].Store? && KeyOf(events[i].filters) == key
    ensures forall j :: i < j < |events| ==> !(events[j].Store? && KeyOf(events[j].filters) == key)
  {
    if |events| == 0 then -1
    else
      var n := |events| - 1;
      if events[n].Store? && KeyOf(events[n].filters) == key then n else LastStore(events[..n], key)
  }

  /** The last use of key, or -1. */
  function LastUse(events: seq<Event>, key: Key): (i: int)
    ensures -1 <= i < |events|
  {
    if |events| == 0 then -1
    else
      var n := |events| - 1;
      if Uses(CacheAfter(events[..n]), events[n]) && KeyOf(events[n].filters) == key then n
      else LastUse(events[..n], key)
  }

  lemma {:induction false} StoredIsLastStore(events: seq<Event>, key: Key)
    ensures var i := LastStore(events, key);
      if i < 0 then key !in Stored(events)
      else key in Stored(events) && Stored(events)[key] == Entry(key, events[i].at, events[i].count)
  {
    if |events| > 0 {
      StoredIsLastStore(events[..|events| - 1], key);
    }
  }

  ghost predicate OrderedByUse(events: seq<Event>, keys: seq<Key>) {
    forall p, q :: 0 <= p < q < |keys| ==> LastUse(events, keys[p]) < LastUse(events, keys[q])
  }

  lemma {:induction false} RecentMeaning(events: seq<Event>)
    ensures Distinct(Recent(events)) && OrderedByUse(events, Recent(events))
    ensures forall key :: key in Recent(events) <==> LastUse(events, key) >= 0
  {
    if |events| > 0 {
      var n := |events| - 1;
      var before, key := events[..n], KeyOf(events[n].filters);
      RecentMeaning(before);
      if Uses(CacheAfter(before), events[n]) {
        UsedOrdered(before, events, Recent(before), key);
      } else {
        assert forall k :: LastUse(events, k) == LastUse(before, k);
      }
    }
  }

  lemma UsedOrdered(before: seq<Event>, events: seq<Event>, recent: seq<Key>, key: Key)
    requires Distinct(recent) && OrderedByUse(before, recent)
    requires forall k :: k in recent <==> LastUse(before, k) >= 0
    requires forall k :: k != key ==> LastUse(events, k) == LastUse(before, k)
    requires LastUse(events, key) == |before|
    ensures Distinct(Used(recent, key)) && OrderedByUse(events, Used(recent, key))
    ensures forall k :: k in Used(recent, key) <==> LastUse(events, k) >= 0
  {
    hide LastUse, PositionOf, Delete;
    DeleteMeaning(recent, key);
    var d := Delete(recent, PositionOf(recent, key));
    DeleteOrdered(before, recent, PositionOf(recent, key));
    assert forall i :: 0 <= i < |d| ==> d[i] in d;
  }

  lemma DeleteOrdered(events: seq<Event>, keys: seq<Key>, p: nat)
    requires OrderedByUse(events, keys)
    ensures OrderedByUse(events, Delete(keys, p))
  {
    hide LastUse;
    if p < |keys| {
      var d := Delete(keys, p);
      assert forall i :: 0 <= i < |d| ==> d[i] == if i < p then keys[i] else keys[i + 1];
    }
  }

  // ---- main results ----

  /** A lookup hits exactly when the last value stored under its key is younger than the time
      limit and its key is one of the 64 most recently used, and it answers that value. */
  lemma {:induction false} CacheIsExact(events: seq<Event>, filters: Filters, now: real)
    ensures var key, cache := KeyOf(filters), CacheAfter(events);
      var i := LastStore(events, key);
      && (Hits(cache, key, now) <==> i >= 0 && key in Newest(Recent(events)) && now - events[i].at < TTL)
      && (Hits(cache, key, now) ==> Lookup(cache, key).value.count == events[i].count)
  {
    var key, cache := KeyOf(filters), CacheAfter(events);
    CacheRefines(events);
    StoredIsLastStore(events, key);
    var p := At(cache, key);
    assert p < |cache| ==> Keys(cache)[p] == key && cache[p] in cache;
    assert p == |cache| ==> key !in Keys(cache);
  }

  /** Event j used its key: it stored it, or looked it up and found it. */
  ghost predicate WasUsed(events: seq<Event>, j: nat)
    requires j < |events|
  {
    events[j].Store? || Hits(CacheAfter(events[..j]), KeyOf(events[j].filters), events[j].at)
  }

  lemma {:induction false} LastUseMeaning(events: seq<Event>, key: Key)
    ensures var i := LastUse(events, key);
      && (i >= 0 ==> WasUsed(events, i) && KeyOf(events[i].filters) == key)
      && (forall j :: i < j < |events| && WasUsed(events, j) ==> KeyOf(events[j].filters) != key)
  {
    hide KeyOf, Hits, CacheAfter;
    if |events| > 0 {
      var before := events[..|events| - 1];
      LastUseMeaning(before, key);
      forall j: nat | j < |before|
        ensures WasUsed(before, j) <==> WasUsed(events, j)
      {
        assert before[..j] == events[..j];
      }
    }
  }

  /** The keys used since key was last used. */
  ghost function LaterKeys(events: seq<Event>, key: Key): set<Key> {
    set j: nat | j < |events| && WasUsed(events, j)
                 && (forall l :: j <= l < |events| && WasUsed(events, l) ==> KeyOf(events[l].filters) != key)
      :: KeyOf(events[j].filters)
  }

  lemma LaterIsLater(events: seq<Event>, key: Key, k: Key)
    ensures k in LaterKeys(events, key) <==> LastUse(events, k) > LastUse(events, key)
  {
    LastUseMeaning(events, key);
    LastUseMeaning(events, k);
    hide LastUse, WasUsed, KeyOf;
    var i, j := LastUse(events, key), LastUse(events, k);
    if j > i {
      assert WasUsed(events, j) && KeyOf(events[j].filters) == k;
    }
  }

  /** The tail of the recency list after key is what was used later. */
  lemma TailIsLater(events: seq<Event>, recent: seq<Key>, p: nat)
    requires p < |recent| && Distinct(recent) && OrderedByUse(events, recent)
    requires forall k :: k in recent <==> LastUse(events, k) >= 0
    ensures |LaterKeys(events, recent[p])| == |recent| - p - 1
  {
    var tail := recent[p + 1..];
    forall k
      ensures k in LaterKeys(events, recent[p]) <==> k in tail
    {
      LaterIsLater(events, recent[p], k);
      hide LastUse, LaterKeys;
      if k in recent {
        var q :| 0 <= q < |recent| && recent[q] == k;
        assert q > p ==> tail[q - p - 1] == k;
      }
      assert forall q :: p < q < |recent| ==> tail[q - p - 1] == recent[q];
    }
    hide LaterKeys;
    assert LaterKeys(events, recent[p]) == SetOf(tail);
    assert Distinct(tail);
    DistinctSize(tail);
  }

  lemma {:induction false} DistinctSize<T>(s: seq<T>)
    requires Distinct(s)
    ensures |SetOf(s)| == |s|
  {
    if |s| > 0 {
      var n := |s| - 1;
      DistinctSize(s[..n]);
      assert s == s[..n] + [s[n]];
      assert SetOf(s) == SetOf(s[..n]) + {s[n]};
      assert s[n] !in SetOf(s[..n]);
    }
  }

  /** In plain terms: a lookup hits exactly when the last value stored under its key is less than 30 seconds
      old and fewer than 64 other keys have been stored or found since the key last was. */
  lemma {:induction false} HitIff(events: seq<Event>, filters: Filters, now: real)
    ensures var key := KeyOf(filters);
      var i := LastStore(events, key);
      Hits(CacheAfter(events), key, now) <==>
        i >= 0 && now - events[i].at < 30.0 && |LaterKeys(events, key)| < 64
  {
    var key := KeyOf(filters);
    CacheIsExact(events, filters, now);
    RecentMeaning(events);
    var i, recent := LastStore(events, key), Recent(events);
    if i >= 0 {
      StoredIsUsed(events, i);
      hide LastUse, LaterKeys, Recent, Hits, CacheAfter, KeyOf;
      assert key in recent;
      var p :| 0 <= p < |recent| && recent[p] == key;
      TailIsLater(events, recent, p);
      NewestAt(recent, p);
    }
  }

  lemma StoredIsUsed(events: seq<Event>, i: nat)
    requires i < |events| && events[i].Store?
    ensures LastUse(events, KeyOf(events[i].filters)) >= i
  {
    LastUseMeaning(events, KeyOf(events[i].filters));
    hide LastUse, KeyOf;
    assert WasUsed(events, i);
  }

  lemma NewestAt(recent: seq<Key>, p: nat)
    requires p < |recent| && Distinct(recent)
    ensures recent[p] in Newest(recent) <==> |recent| - p - 1 < 64
  {
    if |recent| > MAX {
      var newer := recent[|recent| - MAX..];
      assert p >= |recent| - MAX ==> newer[p - (|recent| - MAX)] == recent[p];
      assert forall q :: 0 <= q < |newer| ==> newer[q] == recent[|recent| - MAX + q];
    }
  }

  /** With a clock that never goes back, a hit answers the value most recently stored for a filter with
      the same given fields, whose query started less than 30 seconds ago. That query is the one asked
      for now exactly when both filters or neither name exclude_private with an explicit None. */
  lemma {:induction false} HitIsRecent(events: seq<Event>, filters: Filters, now: real)
    requires WellTyped(filters) && forall i :: 0 <= i < |events| ==> WellTyped(events[i].filters)
    requires forall i :: 0 <= i < |events| ==> events[i].at <= now
    requires Hits(CacheAfter(events), KeyOf(filters), now)
    ensures var i := LastStore(events, KeyOf(filters));
      && 0 <= i
      && Lookup(CacheAfter(events), KeyOf(filters)) == Some(Entry(KeyOf(filters), events[i].at, events[i].count))
      && GivenFields(events[i].filters) == GivenFields(filters)
      && 0.0 <= now - events[i].at < 30.0
      && (forall j :: i < j < |events| && events[j].Store? ==> GivenFields(events[j].filters) != GivenFields(filters))
      && (MemberQuery.Query(events[i].filters) == MemberQuery.Query(filters) <==>
            (MemberQuery.PrivateIsNone(events[i].filters) <==> MemberQuery.PrivateIsNone(filters)))
  {
    hide CacheAfter, GivenFields, WellTyped, MemberQuery.Query, MemberQuery.PrivateIsNone;
    var key := KeyOf(filters);
    CacheRefines(events);
    var i := LastStore(events, key);
    StoredIsLastStore(events, key);
    var p := At(CacheAfter(events), key);
    assert CacheAfter(events)[p] in CacheAfter(events);
    hide KeyOf;
    KeyIsGivenFields(events[i].filters, filters);
    MemberQuery.SameKeySameQueryIff(events[i].filters, filters);
    forall j | i < j < |events| && events[j].Store?
      ensures GivenFields(events[j].filters) != GivenFields(filters)
    {
      KeyIsGivenFields(events[j].filters, filters);
    }
  }

  /** The table each store counted. */
  ghost predicate CountedFrom(events: seq<Event>, tables: seq<seq<MemberQuery.MemberRow>>, fold: char -> char) {
    && |tables| == |events|
    && forall j :: 0 <= j < |events| && events[j].Store? ==>
         events[j].count == MemberQuery.CountRows(tables[j], MemberQuery.Query(events[j].filters), fold)
  }

  /** So as long as no filter names exclude_private with an explicit None, a hit answers what the query
      asked for now gave on the table of less than 30 seconds ago. */
  lemma {:induction false} HitAnswersTheQuery(
    events: seq<Event>, tables: seq<seq<MemberQuery.MemberRow>>, filters: Filters, now: real, fold: char -> char)
    requires WellTyped(filters) && forall i :: 0 <= i < |events| ==> WellTyped(events[i].filters)
    requires forall i :: 0 <= i < |events| ==> events[i].at <= now
    requires !MemberQuery.PrivateIsNone(filters)
    requires forall i :: 0 <= i < |events| ==> !MemberQuery.PrivateIsNone(events[i].filters)
    requires CountedFrom(events, tables, fold)
    requires Hits(CacheAfter(events), KeyOf(filters), now)
    ensures var i := LastStore(events, KeyOf(filters));
      && 0 <= i && 0.0 <= now - events[i].at < 30.0
      && Lookup(CacheAfter(events), KeyOf(filters)).value.count
         == MemberQuery.CountRows(tables[i], MemberQuery.Query(filters), fold)
  {
    hide CacheAfter, KeyOf, WellTyped, Hits, MemberQuery.Query, MemberQuery.PrivateIsNone, MemberQuery.CountRows;
    HitIsRecent(events, filters, now);
    var i := LastStore(events, KeyOf(filters));
    assert events[i].count == MemberQuery.CountRows(tables[i], MemberQuery.Query(events[i].filters), fold);
  }

  /** With such a None the hit can be wrong: the stored count includes a private member, whom the query
      asked for now leaves out. */
  lemma HitMayAnswerAnotherQuery(row: MemberQuery.MemberRow, fold: char -> char)
    requires row.visibility == MemberQuery.Private
    ensures var none := [Field("exclude_private", Absent)];
      var events := [Store(none, 0.0, 1)];
      && CountedFrom(events, [[row]], fold)
      && Hits(CacheAfter(events), KeyOf([]), 0.0)
      && Lookup(CacheAfter(events), KeyOf([])) == Some(Entry(KeyOf([]), 0.0, 1))
      && MemberQuery.CountRows([row], MemberQuery.Query([]), fold) == 0
  {
    hide KeyOf, MemberQuery.Query, MemberQuery.CountRows, CacheAfter, WellTyped;
    MemberQuery.NoneCountsPrivateMembers(row, fold);
    OneStore([Field("exclude_private", Absent)], 0.0, 1);
    OneEntry(KeyOf([]), 0.0, 1);
  }

  lemma OneEntry(key: Key, at: real, count: nat)
    ensures Lookup([Entry(key, at, count)], key) == Some(Entry(key, at, count))
    ensures Hits([Entry(key, at, count)], key, at)
  {
    assert At([Entry(key, at, count)], key) == 0;
  }

  lemma OneStore(filters: Filters, at: real, count: nat)
    ensures CacheAfter([Store(filters, at, count)]) == [Entry(KeyOf(filters), at, count)]
  {
    hide KeyOf;
    assert [Store(filters, at, count)][..0] == [];
    var e := Entry(KeyOf(filters), at, count);
    assert Assign([], e) == [e] && At([e], e.key) == 0;
    assert MoveToEnd([e], e.key) == [e];
  }

  /** At most 64 entries with distinct keys, in order of last use; a key that was used and is not
      held was last used before every key that is, and then the cache is full. */
  lemma {:induction false} OrderIsRecency(events: seq<Event>)
    ensures var keys := Keys(CacheAfter(events));
      && |keys| <= 64
      && Distinct(keys)
      && OrderedByUse(events, keys)
      && (forall k :: k in keys ==> LastUse(events, k) >= 0)
      && (forall k, h :: k !in keys && h in keys && LastUse(events, k) >= 0 ==> LastUse(events, k) < LastUse(events, h))
      && (forall k :: k !in keys && LastUse(events, k) >= 0 ==> |keys| == 64)
  {
    CacheRefines(events);
    RecentMeaning(events);
    NewestOrdered(events, Recent(events));
  }

  lemma NewestOrdered(events: seq<Event>, recent: seq<Key>)
    requires Distinct(recent) && OrderedByUse(events, recent)
    ensures Distinct(Newest(recent)) && OrderedByUse(events, Newest(recent))
    ensures forall k :: k in Newest(recent) ==> k in recent
    ensures forall k, h :: k in recent && k !in Newest(recent) && h in Newest(recent) ==>
      LastUse(events, k) < LastUse(events, h)
    ensures forall k :: k in recent && k !in Newest(recent) ==> |Newest(recent)| == 64
  {
    hide LastUse;
    if |recent| > MAX {
      var older, newer := recent[..|recent| - MAX], recent[|recent| - MAX..];
      assert recent == older + newer;
      forall k, h | k in older && h in newer
        ensures LastUse(events, k) < LastUse(events, h)
      {
        FirstPartEarlier(events, older, newer, k, h);
      }
      assert forall i :: 0 <= i < |newer| ==> newer[i] == recent[|older| + i];
      assert OrderedByUse(events, newer);
    }
  }

  lemma FirstPartEarlier(events: seq<Event>, older: seq<Key>, newer: seq<Key>, k: Key, h: Key)
    requires OrderedByUse(events, older + newer) && k in older && h in newer
    ensures LastUse(events, k) < LastUse(events, h)
  {
    hide LastUse;
    var p :| 0 <= p < |older| && older[p] == k;
    var q :| 0 <= q < |newer| && newer[q] == h;
    assert (older + newer)[p] == k && (older + newer)[|older| + q] == h;
  }

  /** Only storing a key that is not held drops an entry: the least recently used one, and only
      from a full cache. */
  lemma {:induction false} EvictsTheLeastRecentlyUsed(events: seq<Event>, e: Event, key: Key)
    requires key in Keys(CacheAfter(events)) && key !in Keys(CacheAfter(events + [e]))
    ensures e.Store? && KeyOf(e.filters) !in Keys(CacheAfter(events))
    ensures |CacheAfter(events)| == 64
    ensures forall k :: k in Keys(CacheAfter(events)) ==> LastUse(events, key) <= LastUse(events, k)
  {
    var cache := CacheAfter(events);
    assert (events + [e])[..|events|] == events;
    OrderIsRecency(events);
    hide CacheAfter, LastUse, Recent;
    if e.Store? {
      EvictedIsFirst(cache, Entry(KeyOf(e.filters), e.at, e.count), key);
    } else if Hits(cache, KeyOf(e.filters), e.at) {
      MoveKeys(cache, KeyOf(e.filters));
      DeleteMeaning(Keys(cache), KeyOf(e.filters));
    }
  }

  lemma EvictedIsFirst(cache: Cache, e: Entry, key: Key)
    requires |cache| <= MAX && Distinct(Keys(cache)) && key in Keys(cache)
    requires key !in Keys(PopOverflow(MoveToEnd(Assign(cache, e), e.key)))
    ensures e.key !in Keys(cache) && |cache| == MAX && key == Keys(cache)[0]
  {
    StoreKeys(cache, e);
    hide PopOverflow, MoveToEnd, Assign, Keys;
    var keys := Keys(cache);
    DeleteMeaning(keys, e.key);
    if e.key !in keys {
      DeleteAbsent(keys, e.key);
      assert keys + [e.key] == [keys[0]] + (keys[1..] + [e.key]);
      assert key in keys + [e.key];
    }
  }

  // ---- the service's cache ----

  class MemberCountCache {
    var entries: Cache

    constructor ()
      ensures entries == []
    {
      entries := [];
    }

    /** The part before the query: None means the query has to run. */
    method Cached(filters: Filters, now: real) returns (count: Option<nat>)
      modifies this
      ensures entries == Next(old(entries), Look(filters, now))
      ensures count.Some? <==> Hits(old(entries), KeyOf(filters), now)
      ensures count.Some? ==> count.value == Lookup(old(entries), KeyOf(filters)).value.count
    {
      var key := KeyOf(filters);
      var found := Lookup(entries, key);
      if found.Some? && now - found.value.at < TTL {
        entries := MoveToEnd(entries, key);
        return Some(found.value.count);
      }
      count := None;
    }

    /** The part after the query. */
    method Remember(filters: Filters, now: real, count: nat)
      modifies this
      ensures entries == Next(old(entries), Store(filters, now, count))
    {
      var key := KeyOf(filters);
      entries := Assign(entries, Entry(key, now, count));
      entries := MoveToEnd(entries, key);
      if |entries| > MAX {
        entries := entries[1..];
      }
    }

    /** One call that no other call interrupts; queried is what the query answers. A call on behalf
        of a viewer never sees or touches the cache. */
    method CountMembers(filters: Filters, viewer: bool, now: real, queried: nat) returns (count: nat)
      modifies this
      ensures viewer ==> count == queried && entries == old(entries)
      ensures !viewer && Hits(old(entries), KeyOf(filters), now) ==>
                && count == Lookup(old(entries), KeyOf(filters)).value.count
                && entries == Next(old(entries), Look(filters, now))
      ensures !viewer && !Hits(old(entries), KeyOf(filters), now) ==>
                count == queried && entries == Next(old(entries), Store(filters, now, queried))
    {
      if viewer {
        return queried;
      }
      var cached := Cached(filters, now);
      if cached.Some? {
        return cached.value;
      }
      Remember(filters, now, queried);
      count := queried;
    }
  }
}
