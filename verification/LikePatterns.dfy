/** SQL LIKE with escape '\' (section 9.7.1 of the PostgreSQL manual), the escaping the
    repositories apply to search text, and what an escaped pattern finds. */
module LikePatterns {
  import opened Prelude
  import opened CommaText

  /** Does s match the whole pattern p? A pattern that ends in a lone escape is an error in
      PostgreSQL; it is taken to match nothing here and no escaped pattern is one. */
  predicate Like(s: string, p: string)
    decreases |p|
  {
    if p == "" then s == ""
    else if p[0] == '\\' then |p| >= 2 && s != "" && s[0] == p[1] && Like(s[1..], p[2..])
    else if p[0] == '%' then exists i :: 0 <= i <= |s| && Like(s[i..], p[1..])
    else if p[0] == '_' then s != "" && Like(s[1..], p[1..])
    else s != "" && s[0] == p[0] && Like(s[1..], p[1..])
  }

  /** s.replace(c, r) for a single character c. */
  function Replace(s: string, c: char, r: string): string {
    if s == "" then "" else (if s[0] == c then r else [s[0]]) + Replace(s[1..], c, r)
  }

  function EscapeLike(value: string): string {
    Replace(Replace(Replace(value, '\\', "\\\\"), '%', "\\%"), '_', "\\_")
  }

  predicate Special(c: char) { c == '\\' || c == '%' || c == '_' }

  function EscapeChar(c: char): string { if Special(c) then ['\\', c] else [c] }

  function EscapeEach(s: string): string {
    if s == "" then "" else EscapeChar(s[0]) + EscapeEach(s[1..])
  }

  lemma ConsConcat(a: string, b: string)
    requires a != ""
    ensures (a + b)[0] == a[0] && (a + b)[1..] == a[1..] + b
  {
  }

  lemma {:induction false} ReplaceConcat(a: string, b: string, c: char, r: string)
    ensures Replace(a + b, c, r) == Replace(a, c, r) + Replace(b, c, r)
  {
    if a == "" {
      assert a + b == b && Replace(a, c, r) + Replace(b, c, r) == Replace(b, c, r);
    } else {
      ConsConcat(a, b);
      ReplaceConcat(a[1..], b, c, r);
      Assoc(if a[0] == c then r else [a[0]], Replace(a[1..], c, r), Replace(b, c, r));
    }
  }

  /** The three replaces, in this order, escape every character once: the backslashes that
      the second and third insert are not escaped again. */
  lemma {:induction false} EscapeLikeIsPerCharacter(s: string)
    ensures EscapeLike(s) == EscapeEach(s)
  {
    if s != "" {
      var head := [s[0]];
      assert s == head + s[1..] && head[1..] == "";
      EscapeLikeIsPerCharacter(s[1..]);
      ReplaceConcat(head, s[1..], '\\', "\\\\");
      var h1 := Replace(head, '\\', "\\\\");
      var t1 := Replace(s[1..], '\\', "\\\\");
      ReplaceConcat(h1, t1, '%', "\\%");
      var h2 := Replace(h1, '%', "\\%");
      ReplaceConcat(h2, Replace(t1, '%', "\\%"), '_', "\\_");
      EscapeOne(s[0]);
    }
  }

  lemma ReplaceOne(x: char, c: char, r: string)
    ensures Replace([x], c, r) == if x == c then r else [x]
  {
    assert [x][1..] == "";
    assert r + "" == r && [x] + "" == [x];
  }

  lemma EscapeOne(c: char)
    ensures EscapeLike([c]) == EscapeChar(c)
  {
    ReplaceOne(c, '\\', "\\\\");
    ReplaceOne(c, '%', "\\%");
    ReplaceOne(c, '_', "\\_");
    ReplacePair(c, '%', "\\%");
    ReplacePair(c, '_', "\\_");
  }

  /** A later replace leaves the backslash an earlier one inserted alone. */
  lemma ReplacePair(x: char, c: char, r: string)
    requires c != '\\'
    ensures Replace(['\\', x], c, r) == ['\\'] + (if x == c then r else [x])
  {
    ReplaceConcat(['\\'], [x], c, r);
    ReplaceOne('\\', c, r);
    ReplaceOne(x, c, r);
    assert ['\\'] + [x] == ['\\', x];
  }

  lemma {:induction false} EscapeEachConcat(a: string, b: string)
    ensures EscapeEach(a + b) == EscapeEach(a) + EscapeEach(b)
  {
    if a == "" {
      assert a + b == b && EscapeEach(a) + EscapeEach(b) == EscapeEach(b);
    } else {
      ConsConcat(a, b);
      EscapeEachConcat(a[1..], b);
      Assoc(EscapeChar(a[0]), EscapeEach(a[1..]), EscapeEach(b));
    }
  }

  lemma EscapedHead(s: string, c: char, rest: string)
    ensures Like(s, EscapeChar(c) + rest) <==> s != "" && s[0] == c && Like(s[1..], rest)
  {
    var p := EscapeChar(c) + rest;
    assert p[|EscapeChar(c)|..] == rest;
  }

  /** Escaped text in a pattern matches itself and nothing else. */
  lemma {:induction false} EscapedIsLiteral(s: string, q: string, p: string)
    ensures Like(s, EscapeEach(q) + p) <==> q <= s && Like(s[|q|..], p)
  {
    if q == "" {
      assert EscapeEach(q) + p == p;
      assert s[0..] == s;
    } else {
      hide Like;
      var rest := EscapeEach(q[1..]) + p;
      assert EscapeEach(q) + p == EscapeChar(q[0]) + rest;
      EscapedHead(s, q[0], rest);
      if s != "" {
        EscapedIsLiteral(s[1..], q[1..], p);
        assert q <= s <==> s[0] == q[0] && q[1..] <= s[1..];
        assert |q| <= |s| ==> s[1..][|q[1..]|..] == s[|q|..];
      }
    }
  }

  ghost predicate Contains(s: string, q: string) {
    exists i :: 0 <= i <= |s| && q <= s[i..]
  }

  lemma AnySuffix(s: string)
    ensures Like(s, "%")
  {
    assert s[|s|..] == "" && "%"[1..] == "";
    assert Like(s[|s|..], "%"[1..]);
  }

  function SearchPattern(q: string): string { "%" + EscapeLike(q) + "%" }

  /** Escaped search is substring search, whatever characters the search text holds. */
  lemma SearchFindsSubstrings(s: string, q: string)
    ensures Like(s, SearchPattern(q)) <==> Contains(s, q)
  {
    EscapeLikeIsPerCharacter(q);
    var p := SearchPattern(q);
    assert p[1..] == EscapeEach(q) + "%";
    forall i | 0 <= i <= |s|
      ensures Like(s[i..], p[1..]) <==> q <= s[i..]
    {
      EscapedIsLiteral(s[i..], q, "%");
      if q <= s[i..] { AnySuffix(s[i..][|q|..]); }
    }
  }

  // ---- ILIKE ----

  function Fold(s: string, fold: char -> char): string {
    seq(|s|, i requires 0 <= i < |s| => fold(s[i]))
  }

  /** A case folding that keeps the pattern characters apart from all others. */
  ghost predicate KeepsSpecials(fold: char -> char) {
    forall c :: Special(c) || Special(fold(c)) ==> fold(c) == c
  }

  predicate ILike(s: string, p: string, fold: char -> char) { Like(Fold(s, fold), Fold(p, fold)) }

  lemma {:induction false} FoldEscape(q: string, fold: char -> char)
    requires KeepsSpecials(fold)
    ensures Fold(EscapeEach(q), fold) == EscapeEach(Fold(q, fold))
  {
    if q != "" {
      FoldEscape(q[1..], fold);
      assert Fold(q, fold)[1..] == Fold(q[1..], fold);
      assert Special('\\');
      assert Fold(EscapeChar(q[0]), fold) == EscapeChar(fold(q[0]));
    }
  }

  /** ilike over an escaped search text is case-insensitive substring search. */
  lemma InsensitiveSearch(s: string, q: string, fold: char -> char)
    requires KeepsSpecials(fold)
    ensures ILike(s, SearchPattern(q), fold) <==> Contains(Fold(s, fold), Fold(q, fold))
  {
    EscapeLikeIsPerCharacter(q);
    EscapeLikeIsPerCharacter(Fold(q, fold));
    FoldEscape(q, fold);
    assert Special('%');
    assert Fold(SearchPattern(q), fold) == SearchPattern(Fold(q, fold));
    SearchFindsSubstrings(Fold(s, fold), Fold(q, fold));
  }

  // ---- exact tokens of a comma-separated column ----

  function Bounded(s: string): string { "," + s + "," }

  /** The pattern of count_active_members_with_role. */
  function TokenPattern(role: string): string { "%," + EscapeLike(role) + ",%" }

  lemma ContainsCons(c: char, u: string, q: string)
    ensures Contains([c] + u, q) <==> q <= [c] + u || Contains(u, q)
  {
    var b := [c] + u;
    assert b[0..] == b;
    if Contains(b, q) && !(q <= b) {
      var i :| 0 <= i <= |b| && q <= b[i..];
      assert b[i..] == u[i - 1..];
    }
    if Contains(u, q) {
      var j :| 0 <= j <= |u| && q <= u[j..];
      assert b[j + 1..] == u[j..];
    }
  }

  /** A bounded token cannot start inside comma-free text. */
  lemma {:induction false} SkipCommaFree(x: string, rest: string, q: string)
    requires CommaFree(x) && q != "" && q[0] == ','
    ensures Contains(x + rest, q) <==> Contains(rest, q)
  {
    if x == "" {
      assert x + rest == rest;
    } else {
      ConsConcat(x, rest);
      assert x + rest == [x[0]] + (x[1..] + rest);
      ContainsCons(x[0], x[1..] + rest, q);
      SkipCommaFree(x[1..], rest, q);
    }
  }

  lemma CutAt(s: string, k: nat)
    requires k < |s| && s[k] == ','
    ensures Bounded(s) == [','] + (s[..k] + Bounded(s[k + 1..]))
  {
    assert s == s[..k] + "," + s[k + 1..];
  }

  lemma HeadToken(s: string, role: string)
    requires CommaFree(role)
    ensures Bounded(role) <= Bounded(s) <==> role == s[..FirstComma(s)]
  {
    var k := FirstComma(s);
    var b := Bounded(s);
    if Bounded(role) <= b {
      var r := Bounded(role);
      assert forall i :: 0 <= i < |r| ==> r[i] == b[i];
      assert forall i :: 0 <= i < |role| ==> role[i] == r[i + 1] && s[i] == b[i + 1];
      assert s[..|role|] == role;
      assert r[|role| + 1] == ',';
      FirstCommaAt(s, |role|);
    }
    if role == s[..k] {
      assert Bounded(role) == b[..k + 2];
    }
  }

  lemma {:induction false} BoundedToken(s: string, role: string)
    requires CommaFree(role)
    ensures Contains(Bounded(s), Bounded(role)) <==> role in Split(s)
  {
    var k := FirstComma(s);
    HeadToken(s, role);
    if k < |s| {
      var t := s[k + 1..];
      CutAt(s, k);
      ContainsCons(',', s[..k] + Bounded(t), Bounded(role));
      SkipCommaFree(s[..k], Bounded(t), Bounded(role));
      BoundedToken(t, role);
    } else {
      assert s[..k] == s;
      assert Bounded(s) == [','] + (s + ",");
      ContainsCons(',', s + ",", Bounded(role));
      SkipCommaFree(s, ",", Bounded(role));
      assert !Contains(",", Bounded(role));
    }
  }

  /** The counting pattern matches exactly the rows that carry the role as a whole token,
      even though '_' is a LIKE wildcard and roles such as super_admin contain it. */
  lemma TokenPatternIsExact(roles: string, role: string)
    requires CommaFree(role)
    ensures Like(Bounded(roles), TokenPattern(role)) <==> role in Split(roles)
  {
    EscapeLikeIsPerCharacter(role);
    EscapeLikeIsPerCharacter(Bounded(role));
    EscapeEachConcat("," + role, ",");
    EscapeEachConcat(",", role);
    assert ","[1..] == "" && EscapeEach(",") == ",";
    assert "," + role + "," == ("," + role) + ",";
    assert TokenPattern(role) == SearchPattern(Bounded(role));
    SearchFindsSubstrings(Bounded(roles), Bounded(role));
    BoundedToken(roles, role);
  }
}
