/** Small shared vocabulary: options, results, counting over a sequence, and
    order-preserving removal of duplicates. */
module Prelude {

  datatype Option<+T> = None | Some(value: T)

  datatype Result<+T, +E> = Ok(value: T) | Err(error: E)

  /** How many elements of s satisfy p: a SELECT count over a table. */
  function Count<T>(s: seq<T>, p: T -> bool): nat {
    if |s| == 0 then 0
    else Count(s[..|s| - 1], p) + (if p(s[|s| - 1]) then 1 else 0)
  }

  /** Two tables that agree row by row have the same count. */
  lemma {:induction false} CountPointwise<T>(s: seq<T>, t: seq<T>, p: T -> bool, q: T -> bool)
    requires |s| == |t|
    requires forall i :: 0 <= i < |s| ==> p(s[i]) == q(t[i])
    ensures Count(s, p) == Count(t, q)
  {
    if |s| > 0 {
      CountPointwise(s[..|s| - 1], t[..|t| - 1], p, q);
    }
  }

  /** Two tables that agree except possibly in row k. */
  lemma {:induction false} CountDiffer<T>(s: seq<T>, t: seq<T>, p: T -> bool, q: T -> bool, k: nat)
    requires |s| == |t| && k < |s|
    requires forall i :: 0 <= i < |s| && i != k ==> p(s[i]) == q(t[i])
    ensures Count(t, q) + (if p(s[k]) then 1 else 0) == Count(s, p) + (if q(t[k]) then 1 else 0)
  {
    var n := |s| - 1;
    if k == n {
      CountPointwise(s[..n], t[..n], p, q);
    } else {
      CountDiffer(s[..n], t[..n], p, q, k);
    }
  }

  /** A partition of the rows splits the count. */
  lemma {:induction false} CountSplit<T>(s: seq<T>, p: T -> bool, q: T -> bool, r: T -> bool)
    requires forall i :: 0 <= i < |s| ==> (p(s[i]) <==> q(s[i]) || r(s[i])) && !(q(s[i]) && r(s[i]))
    ensures Count(s, p) == Count(s, q) + Count(s, r)
  {
    if |s| > 0 {
      CountSplit(s[..|s| - 1], p, q, r);
    }
  }

  lemma {:induction false} CountConcat<T>(s: seq<T>, t: seq<T>, p: T -> bool)
    ensures Count(s + t, p) == Count(s, p) + Count(t, p)
  {
    if |t| == 0 {
      assert s + t == s;
    } else {
      var n := |t| - 1;
      CountConcat(s, t[..n], p);
      assert (s + t)[..|s + t| - 1] == s + t[..n];
    }
  }

  /** The positions of the elements that satisfy p. */
  function Positions<T>(s: seq<T>, p: T -> bool): set<nat> { set i: nat | i < |s| && p(s[i]) }

  /** A count is the number of positions that satisfy the condition. */
  lemma {:induction false} CountIsSize<T>(s: seq<T>, p: T -> bool)
    ensures Count(s, p) == |Positions(s, p)|
  {
    if |s| > 0 {
      var n := |s| - 1;
      CountIsSize(s[..n], p);
      var before := Positions(s[..n], p);
      assert forall i: nat :: i < n ==> s[..n][i] == s[i];
      assert Positions(s, p) == before + (if p(s[n]) then {n} else {});
    } else {
      assert Positions(s, p) == {};
    }
  }

  /** A weaker condition holds of at least as many elements. */
  lemma {:induction false} CountMonotone<T>(s: seq<T>, p: T -> bool, q: T -> bool)
    requires forall i :: 0 <= i < |s| && p(s[i]) ==> q(s[i])
    ensures Count(s, p) <= Count(s, q)
  {
    if |s| > 0 {
      CountMonotone(s[..|s| - 1], p, q);
    }
  }

  lemma CountAppend<T>(s: seq<T>, x: T, p: T -> bool)
    ensures Count(s + [x], p) == Count(s, p) + (if p(x) then 1 else 0)
  {
    assert (s + [x])[..|s|] == s;
  }

  lemma {:induction false} CountZero<T>(s: seq<T>, p: T -> bool)
    ensures Count(s, p) == 0 <==> forall i :: 0 <= i < |s| ==> !p(s[i])
  {
    if |s| > 0 {
      var n := |s| - 1;
      CountZero(s[..n], p);
      assert forall i :: 0 <= i < n ==> s[..n][i] == s[i];
    }
  }

  lemma Assoc<T>(a: seq<T>, b: seq<T>, c: seq<T>)
    ensures a + b + c == a + (b + c)
  {
  }

  lemma SliceJoin<T>(s: seq<T>, i: nat, j: nat)
    requires i <= j <= |s|
    ensures s[..i] + s[i..j] == s[..j]
  {
  }

  /** Where x first occurs in s, or |s|. */
  function PositionOf<T(==)>(s: seq<T>, x: T): (p: nat)
    ensures p <= |s|
    ensures p < |s| ==> s[p] == x
    ensures forall i :: 0 <= i < p ==> s[i] != x
  {
    if |s| == 0 || s[0] == x then 0 else 1 + PositionOf(s[1..], x)
  }

  lemma PositionConcat<T>(a: seq<T>, b: seq<T>, x: T)
    ensures x in a ==> PositionOf(a, x) < |a| && PositionOf(a + b, x) == PositionOf(a, x)
    ensures x !in a ==> PositionOf(a + b, x) == |a| + PositionOf(b, x)
  {
    var p := PositionOf(a + b, x);
    if p < |a| {
      assert a[p] == x;
    }
    if x in a {
      var i :| 0 <= i < |a| && a[i] == x;
      assert (a + b)[i] == x && (a + b)[PositionOf(a, x)] == x;
    } else {
      var q := PositionOf(b, x);
      assert forall i :: |a| <= i < |a| + q ==> (a + b)[i] == b[i - |a|];
      if q < |b| { assert (a + b)[|a| + q] == x; }
    }
  }

  /** The first occurrence of every element, in order. */
  function Dedupe<T(==)>(s: seq<T>): seq<T> {
    if |s| == 0 then []
    else
      var d := Dedupe(s[..|s| - 1]);
      if s[|s| - 1] in d then d else d + [s[|s| - 1]]
  }

  /** c lists elements in the order in which they first occur in s. */
  ghost predicate InOrderOf<T>(s: seq<T>, c: seq<T>) {
    forall i, j :: 0 <= i < j < |c| ==> PositionOf(s, c[i]) < PositionOf(s, c[j])
  }

  lemma OrderExtends<T>(s: seq<T>, h: T, c: seq<T>)
    requires InOrderOf(s, c) && forall i :: 0 <= i < |c| ==> c[i] in s
    ensures InOrderOf(s + [h], c)
    ensures h !in s ==> InOrderOf(s + [h], c + [h])
  {
    hide PositionOf;
    forall i | 0 <= i < |c|
      ensures PositionOf(s + [h], c[i]) == PositionOf(s, c[i]) < |s|
    {
      assert c[i] in s;
      PositionConcat(s, [h], c[i]);
    }
    PositionConcat(s, [h], h);
  }

  lemma InOrderOfMore<T>(s: seq<T>, b: seq<T>, c: seq<T>)
    requires InOrderOf(s, b) && InOrderOf(b, c) && forall i :: 0 <= i < |c| ==> c[i] in b
    ensures InOrderOf(s, c)
  {
    hide PositionOf;
    forall i, j | 0 <= i < j < |c|
      ensures PositionOf(s, c[i]) < PositionOf(s, c[j])
    {
      var p, q := PositionOf(b, c[i]), PositionOf(b, c[j]);
      assert c[i] in b && c[j] in b;
      assert b[p] == c[i] && b[q] == c[j] && p < q;
    }
  }

  ghost predicate Distinct<T>(s: seq<T>) {
    forall i, j :: 0 <= i < j < |s| ==> s[i] != s[j]
  }

  /** Removing duplicates keeps the elements, leaves no duplicate, and changes
      nothing when there is none. */
  lemma {:induction false} DedupeMeaning<T>(s: seq<T>)
    ensures Distinct(Dedupe(s))
    ensures forall x :: x in Dedupe(s) <==> x in s
    ensures Distinct(s) ==> Dedupe(s) == s
  {
    if |s| > 0 {
      var n := |s| - 1;
      DedupeMeaning(s[..n]);
      assert s == s[..n] + [s[n]];
    }
  }

  /** What is kept is in its old order. */
  lemma {:induction false} DedupeOrder<T>(s: seq<T>)
    ensures InOrderOf(s, Dedupe(s)) && forall i :: 0 <= i < |Dedupe(s)| ==> Dedupe(s)[i] in s
  {
    if |s| == 0 {
      EmptyInOrder(s);
    } else {
      var before, h := s[..|s| - 1], s[|s| - 1];
      assert s == before + [h];
      DedupeOrder(before);
      DedupeMeaning(before);
      var d := Dedupe(before);
      OrderExtends(before, h, d);
    }
  }

  lemma EmptyInOrder<T>(s: seq<T>)
    ensures InOrderOf<T>(s, [])
  {
  }

  function SetOf<T(==)>(s: seq<T>): set<T> { set x | x in s }

  lemma SetOfConcat<T>(a: seq<T>, b: seq<T>)
    ensures SetOf(a + b) == SetOf(a) + SetOf(b)
  {
    assert forall x :: x in a + b <==> x in a || x in b;
  }

  lemma DistinctConcat<T>(a: seq<T>, b: seq<T>)
    requires Distinct(a) && Distinct(b) && SetOf(a) !! SetOf(b)
    ensures Distinct(a + b)
  {
    forall i, j | 0 <= i < |a| && 0 <= j < |b|
      ensures a[i] != b[j]
    {
      assert a[i] in SetOf(a) && b[j] in SetOf(b);
    }
  }

  lemma SetOfEmpty<T>(s: seq<T>)
    ensures SetOf(s) == {} <==> s == []
  {
    if |s| > 0 {
      assert s[0] in SetOf(s);
    }
  }

  /** Two sets that differ at most in x. */
  lemma SetSize<T>(before: set<T>, after: set<T>, x: T)
    requires forall y :: y != x ==> (y in before <==> y in after)
    ensures |after| == |before| + (if x in after then 1 else 0) - (if x in before then 1 else 0)
  {
    assert before - {x} == after - {x};
    assert |before| == |before - {x}| + |before * {x}| && |after| == |after - {x}| + |after * {x}|;
    assert before * {x} == if x in before then {x} else {};
    assert after * {x} == if x in after then {x} else {};
  }

  function Filter<T>(s: seq<T>, p: T -> bool): seq<T> {
    if |s| == 0 then []
    else Filter(s[..|s| - 1], p) + (if p(s[|s| - 1]) then [s[|s| - 1]] else [])
  }

  lemma {:induction false} FilterMeaning<T>(s: seq<T>, p: T -> bool)
    ensures forall x :: x in Filter(s, p) <==> x in s && p(x)
    ensures Distinct(s) ==> Distinct(Filter(s, p))
  {
    if |s| > 0 {
      var n := |s| - 1;
      FilterMeaning(s[..n], p);
      assert s == s[..n] + [s[n]];
    }
  }

  lemma {:induction false} FilterOrder<T>(s: seq<T>, p: T -> bool)
    requires Distinct(s)
    ensures InOrderOf(s, Filter(s, p)) && forall i :: 0 <= i < |Filter(s, p)| ==> Filter(s, p)[i] in s
  {
    if |s| == 0 {
      EmptyInOrder(s);
    } else {
      var before, h := s[..|s| - 1], s[|s| - 1];
      assert s == before + [h] && h !in before;
      FilterOrder(before, p);
      var kept := Filter(before, p);
      OrderExtends(before, h, kept);
      assert kept + [] == kept;
    }
  }

  lemma {:induction false} FilterAll<T>(s: seq<T>, p: T -> bool)
    requires forall x :: x in s ==> p(x)
    ensures Filter(s, p) == s
  {
    if |s| > 0 {
      FilterAll(s[..|s| - 1], p);
    }
  }
}
