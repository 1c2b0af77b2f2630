/** The query behind the member count: the conditions a filter turns into, what they select, and when
    two filters with the same cache key mean the same query. */
module MemberQuery {
  import opened Prelude
  import opened LikePatterns
  import opened FilterKeys

  datatype Visibility = Everybody | SameCohort | Private

  datatype Column = Name | Email | StudentId | Major | Company | Industry | JobTitle | PersonalAddress | CompanyAddress

  /** A row of the members table; the optional columns are nullable. */
  datatype MemberRow = MemberRow(
    name: string, email: Option<string>, studentId: string, cohort: int, major: Option<string>,
    company: Option<string>, industry: Option<string>, jobTitle: Option<string>,
    personalAddress: Option<string>, companyAddress: Option<string>, visibility: Visibility)
  {
    function Get(c: Column): Option<string> {
      match c
      case Name => Some(name)
      case Email => email
      case StudentId => Some(studentId)
      case Major => major
      case Company => company
      case Industry => industry
      case JobTitle => jobTitle
      case PersonalAddress => personalAddress
      case CompanyAddress => companyAddress
    }
  }

  /** What _build_member_conditions appends to its list. */
  datatype Condition =
    | AnyLike(columns: seq<Column>, pattern: string)
    | CohortIs(cohort: int)
    | NotPrivate

  // ---- reading the filter ----

  /** filters.get(name): None when the name is missing, Some(Absent) for an explicit None. */
  function Lookup(filters: Filters, name: string): Option<Value> {
    if |filters| == 0 then None
    else
      var last := filters[|filters| - 1];
      if last.name == name then Some(last.value) else Lookup(filters[..|filters| - 1], name)
  }

  /** The text of a field, "" when it is missing, None or empty: all three are falsy. */
  function TextOf(filters: Filters, name: string): string {
    match Lookup(filters, name)
    case Some(Str(s)) => s
    case _ => ""
  }

  /** filters.get('exclude_private', True): a missing field counts as true, an explicit None as false. */
  predicate ExcludesPrivate(filters: Filters) {
    match Lookup(filters, "exclude_private")
    case None => true
    case Some(Absent) => false
    case Some(Flag(b)) => b
    case Some(Num(n)) => n != 0
    case Some(Str(s)) => s != ""
  }

  function TextCondition(filters: Filters, name: string, columns: seq<Column>): seq<Condition> {
    var text := TextOf(filters, name);
    if text == "" then [] else [AnyLike(columns, SearchPattern(text))]
  }

  function CohortCondition(filters: Filters): seq<Condition> {
    match Lookup(filters, "cohort")
    case Some(Num(n)) => [CohortIs(n)]
    case _ => []
  }

  const COLUMN_KEYS := [("major", Major), ("company", Company), ("industry", Industry)]

  function ColumnConditions(filters: Filters, keys: seq<(string, Column)>): seq<Condition> {
    if |keys| == 0 then []
    else
      var (key, column) := keys[|keys| - 1];
      ColumnConditions(filters, keys[..|keys| - 1]) + TextCondition(filters, key, [column])
  }

  function FieldConditions(filters: Filters): seq<Condition> {
    TextCondition(filters, "q", [Name, Email, StudentId])
    + CohortCondition(filters)
    + ColumnConditions(filters, COLUMN_KEYS)
    + TextCondition(filters, "region", [PersonalAddress, CompanyAddress])
    + TextCondition(filters, "job_title", [JobTitle])
  }

  /** The conditions of a count that is not made on behalf of a viewer. */
  function Query(filters: Filters): seq<Condition> {
    FieldConditions(filters) + (if ExcludesPrivate(filters) then [NotPrivate] else [])
  }

  /** if text: conds.append(...) */
  method AppendLike(conds: seq<Condition>, filters: Filters, name: string, columns: seq<Column>)
    returns (more: seq<Condition>)
    ensures more == conds + TextCondition(filters, name, columns)
  {
    var text := TextOf(filters, name);
    more := if text != "" then conds + [AnyLike(columns, SearchPattern(text))] else conds;
  }

  method BuildMemberConditions(filters: Filters) returns (conds: seq<Condition>)
    ensures conds == Query(filters)
    ensures WellTyped(filters) ==> forall row, fold :: KeepsSpecials(fold) ==>
      (Selected(conds, row, fold) <==> Asked(filters, row, fold))
  {
    QueryAsked(filters);
    hide Selected, Asked, WellTyped, KeepsSpecials;
    hide TextCondition, Lookup, ExcludesPrivate;
    conds := AppendLike([], filters, "q", [Name, Email, StudentId]);
    assert conds == TextCondition(filters, "q", [Name, Email, StudentId]);
    var cohort := Lookup(filters, "cohort");
    if cohort.Some? && cohort.value.Num? {
      conds := conds + [CohortIs(cohort.value.n)];
    }
    ghost var start := TextCondition(filters, "q", [Name, Email, StudentId]) + CohortCondition(filters);
    for i := 0 to |COLUMN_KEYS|
      invariant conds == start + ColumnConditions(filters, COLUMN_KEYS[..i])
    {
      var (key, column) := COLUMN_KEYS[i];
      assert COLUMN_KEYS[..i + 1][..i] == COLUMN_KEYS[..i];
      Assoc(start, ColumnConditions(filters, COLUMN_KEYS[..i]), TextCondition(filters, key, [column]));
      conds := AppendLike(conds, filters, key, [column]);
    }
    assert COLUMN_KEYS[..|COLUMN_KEYS|] == COLUMN_KEYS;
    hide ColumnConditions;
    conds := AppendLike(conds, filters, "region", [PersonalAddress, CompanyAddress]);
    conds := AppendLike(conds, filters, "job_title", [JobTitle]);
    if ExcludesPrivate(filters) {
      conds := conds + [NotPrivate];
    }
  }

  // ---- what the query selects ----

  /** Is the condition TRUE of the row? A comparison with NULL is not, and no condition is ever negated. */
  predicate Selects(c: Condition, row: MemberRow, fold: char -> char) {
    match c
    case AnyLike(columns, pattern) =>
      exists i :: 0 <= i < |columns| && row.Get(columns[i]).Some? && ILike(row.Get(columns[i]).value, pattern, fold)
    case CohortIs(n) => row.cohort == n
    case NotPrivate => row.visibility != Private
  }

  predicate Selected(conds: seq<Condition>, row: MemberRow, fold: char -> char) {
    forall i :: 0 <= i < |conds| ==> Selects(conds[i], row, fold)
  }

  function SelectedBy(conds: seq<Condition>, fold: char -> char): MemberRow -> bool {
    (row: MemberRow) => Selected(conds, row, fold)
  }

  /** SELECT count(*) with these conditions. */
  function CountRows(table: seq<MemberRow>, conds: seq<Condition>, fold: char -> char): nat {
    Count(table, SelectedBy(conds, fold))
  }

  /** A text condition selects the rows with the text somewhere in one of the columns, ignoring case. */
  lemma AnyLikeMeaning(columns: seq<Column>, text: string, row: MemberRow, fold: char -> char)
    requires KeepsSpecials(fold)
    ensures Selects(AnyLike(columns, SearchPattern(text)), row, fold) <==>
      exists i :: 0 <= i < |columns| && Holds(row.Get(columns[i]), text, fold)
  {
    forall i | 0 <= i < |columns| && row.Get(columns[i]).Some?
      ensures ILike(row.Get(columns[i]).value, SearchPattern(text), fold) <==> Holds(row.Get(columns[i]), text, fold)
    {
      InsensitiveSearch(row.Get(columns[i]).value, text, fold);
    }
    hide ILike, Contains, SearchPattern;
    assert forall i :: 0 <= i < |columns| && row.Get(columns[i]).None? ==> !Holds(row.Get(columns[i]), text, fold);
  }

  ghost predicate Holds(value: Option<string>, text: string, fold: char -> char) {
    value.Some? && Contains(Fold(value.value, fold), Fold(text, fold))
  }

  // ---- what a filter asks for ----

  /** q in the name, e-mail or student number; the cohort itself; major, company, industry and job title each in
      its own column; region in either address; and no private member, unless exclude_private is there and is
      not true. A missing, None or empty field asks for nothing. */
  ghost predicate Asked(filters: Filters, row: MemberRow, fold: char -> char) {
    && (forall t :: Field("q", Str(t)) in filters && t != "" ==>
          Holds(Some(row.name), t, fold) || Holds(row.email, t, fold) || Holds(Some(row.studentId), t, fold))
    && (forall n :: Field("cohort", Num(n)) in filters ==> row.cohort == n)
    && (forall t :: Field("major", Str(t)) in filters && t != "" ==> Holds(row.major, t, fold))
    && (forall t :: Field("company", Str(t)) in filters && t != "" ==> Holds(row.company, t, fold))
    && (forall t :: Field("industry", Str(t)) in filters && t != "" ==> Holds(row.industry, t, fold))
    && (forall t :: Field("region", Str(t)) in filters && t != "" ==>
          Holds(row.personalAddress, t, fold) || Holds(row.companyAddress, t, fold))
    && (forall t :: Field("job_title", Str(t)) in filters && t != "" ==> Holds(row.jobTitle, t, fold))
    && ((forall v :: Field("exclude_private", v) in filters ==> v == Flag(true)) ==> row.visibility != Private)
  }

  ghost predicate AnyHolds(columns: seq<Column>, text: string, row: MemberRow, fold: char -> char) {
    exists i :: 0 <= i < |columns| && Holds(row.Get(columns[i]), text, fold)
  }

  lemma SelectedConcat(a: seq<Condition>, b: seq<Condition>, row: MemberRow, fold: char -> char)
    ensures Selected(a + b, row, fold) <==> Selected(a, row, fold) && Selected(b, row, fold)
  {
    hide Selects;
    assert forall i :: 0 <= i < |a| ==> (a + b)[i] == a[i];
    assert forall i :: 0 <= i < |b| ==> (a + b)[|a| + i] == b[i];
  }

  lemma SelectedOne(c: Condition, row: MemberRow, fold: char -> char)
    ensures Selected([c], row, fold) <==> Selects(c, row, fold)
    ensures Selected([], row, fold)
  {
    assert [c][0] == c;
  }

  lemma TextMeaning(filters: Filters, name: string, columns: seq<Column>, row: MemberRow, fold: char -> char)
    requires WellTyped(filters) && KeepsSpecials(fold)
    ensures Selected(TextCondition(filters, name, columns), row, fold) <==>
      forall t :: Field(name, Str(t)) in filters && t != "" ==> AnyHolds(columns, t, row, fold)
  {
    forall t
      ensures Lookup(filters, name) == Some(Str(t)) <==> Field(name, Str(t)) in filters
    {
      LookupMeaning(filters, name, Str(t));
    }
    hide Lookup, WellTyped, Selects, AnyHolds, Selected, SearchPattern;
    var text := TextOf(filters, name);
    SelectedOne(AnyLike(columns, SearchPattern(text)), row, fold);
    AnyMeaning(columns, text, row, fold);
  }

  lemma AnyMeaning(columns: seq<Column>, text: string, row: MemberRow, fold: char -> char)
    requires KeepsSpecials(fold)
    ensures Selects(AnyLike(columns, SearchPattern(text)), row, fold) <==> AnyHolds(columns, text, row, fold)
  {
    hide Selects, Holds;
    AnyLikeMeaning(columns, text, row, fold);
  }

  lemma CohortMeaning(filters: Filters, row: MemberRow, fold: char -> char)
    requires WellTyped(filters)
    ensures Selected(CohortCondition(filters), row, fold) <==>
      forall n :: Field("cohort", Num(n)) in filters ==> row.cohort == n
  {
    forall n
      ensures Lookup(filters, "cohort") == Some(Num(n)) <==> Field("cohort", Num(n)) in filters
    {
      LookupMeaning(filters, "cohort", Num(n));
    }
    hide Lookup, WellTyped, Selected;
    SelectedOne(if CohortCondition(filters) == [] then NotPrivate else CohortCondition(filters)[0], row, fold);
  }

  lemma PrivateMeaning(filters: Filters)
    requires WellTyped(filters)
    ensures ExcludesPrivate(filters) <==> forall v :: Field("exclude_private", v) in filters ==> v == Flag(true)
  {
    forall v
      ensures Lookup(filters, "exclude_private") == Some(v) <==> Field("exclude_private", v) in filters
    {
      LookupMeaning(filters, "exclude_private", v);
    }
    hide Lookup;
    forall v | Field("exclude_private", v) in filters
      ensures v == Absent || v.Flag?
    {
      var i :| 0 <= i < |filters| && filters[i] == Field("exclude_private", v);
      assert WellTypedField(filters[i]);
      assert "exclude_private" != "cohort" by { assert "exclude_private"[0] != "cohort"[0]; }
    }
  }

  lemma ColumnsMeaning(filters: Filters, row: MemberRow, fold: char -> char)
    requires WellTyped(filters) && KeepsSpecials(fold)
    ensures Selected(ColumnConditions(filters, COLUMN_KEYS), row, fold) <==>
      && (forall t :: Field("major", Str(t)) in filters && t != "" ==> AnyHolds([Major], t, row, fold))
      && (forall t :: Field("company", Str(t)) in filters && t != "" ==> AnyHolds([Company], t, row, fold))
      && (forall t :: Field("industry", Str(t)) in filters && t != "" ==> AnyHolds([Industry], t, row, fold))
  {
    TextMeaning(filters, "major", [Major], row, fold);
    TextMeaning(filters, "company", [Company], row, fold);
    TextMeaning(filters, "industry", [Industry], row, fold);
    hide TextCondition, Selected, AnyHolds, WellTyped;
    var a, b, c := TextCondition(filters, "major", [Major]), TextCondition(filters, "company", [Company]),
                   TextCondition(filters, "industry", [Industry]);
    ColumnsInOrder(filters);
    SelectedConcat(a + b, c, row, fold);
    SelectedConcat(a, b, row, fold);
  }

  lemma ColumnsInOrder(filters: Filters)
    ensures ColumnConditions(filters, COLUMN_KEYS) == TextCondition(filters, "major", [Major])
      + TextCondition(filters, "company", [Company]) + TextCondition(filters, "industry", [Industry])
  {
    hide TextCondition;
    var keys := COLUMN_KEYS;
    assert keys[..2][..1] == keys[..1] && keys[..1][..0] == [];
    assert ColumnConditions(filters, keys[..0]) == [];
    assert ColumnConditions(filters, keys[..1]) == [] + TextCondition(filters, "major", [Major]);
    assert ColumnConditions(filters, keys[..2])
        == ColumnConditions(filters, keys[..1]) + TextCondition(filters, "company", [Company]);
  }

  lemma OneColumn(c: Column, text: string, row: MemberRow, fold: char -> char)
    ensures AnyHolds([c], text, row, fold) <==> Holds(row.Get(c), text, fold)
  {
    assert [c][0] == c;
  }

  lemma ColumnsHold(row: MemberRow, fold: char -> char)
    ensures forall t :: AnyHolds([Name, Email, StudentId], t, row, fold) <==>
      Holds(Some(row.name), t, fold) || Holds(row.email, t, fold) || Holds(Some(row.studentId), t, fold)
    ensures forall t :: AnyHolds([PersonalAddress, CompanyAddress], t, row, fold) <==>
      Holds(row.personalAddress, t, fold) || Holds(row.companyAddress, t, fold)
    ensures forall t :: AnyHolds([Major], t, row, fold) <==> Holds(row.major, t, fold)
    ensures forall t :: AnyHolds([Company], t, row, fold) <==> Holds(row.company, t, fold)
    ensures forall t :: AnyHolds([Industry], t, row, fold) <==> Holds(row.industry, t, fold)
    ensures forall t :: AnyHolds([JobTitle], t, row, fold) <==> Holds(row.jobTitle, t, fold)
  {
    hide Holds;
    forall t: string
      ensures AnyHolds([Name, Email, StudentId], t, row, fold) <==>
        Holds(Some(row.name), t, fold) || Holds(row.email, t, fold) || Holds(Some(row.studentId), t, fold)
      ensures AnyHolds([PersonalAddress, CompanyAddress], t, row, fold) <==>
        Holds(row.personalAddress, t, fold) || Holds(row.companyAddress, t, fold)
    {
      var three, two := [Name, Email, StudentId], [PersonalAddress, CompanyAddress];
      assert three[0] == Name && three[1] == Email && three[2] == StudentId;
      assert two[0] == PersonalAddress && two[1] == CompanyAddress;
    }
    forall c: Column, t: string
      ensures AnyHolds([c], t, row, fold) <==> Holds(row.Get(c), t, fold)
    {
      OneColumn(c, t, row, fold);
    }
  }

  /** The query selects exactly the rows that the filter asks for. */
  lemma QueryMeaning(filters: Filters, row: MemberRow, fold: char -> char)
    requires WellTyped(filters) && KeepsSpecials(fold)
    ensures Selected(Query(filters), row, fold) <==> Asked(filters, row, fold)
  {
    TextMeaning(filters, "q", [Name, Email, StudentId], row, fold);
    CohortMeaning(filters, row, fold);
    ColumnsMeaning(filters, row, fold);
    TextMeaning(filters, "region", [PersonalAddress, CompanyAddress], row, fold);
    TextMeaning(filters, "job_title", [JobTitle], row, fold);
    PrivateMeaning(filters);
    SelectedOne(NotPrivate, row, fold);
    ColumnsHold(row, fold);
    hide TextCondition, CohortCondition, ColumnConditions, ExcludesPrivate, Selected, AnyHolds, Holds, WellTyped;
    hide KeepsSpecials;
    var q, c, m := TextCondition(filters, "q", [Name, Email, StudentId]), CohortCondition(filters),
                   ColumnConditions(filters, COLUMN_KEYS);
    var r, j := TextCondition(filters, "region", [PersonalAddress, CompanyAddress]),
                TextCondition(filters, "job_title", [JobTitle]);
    SelectedConcat(q, c, row, fold);
    SelectedConcat(q + c, m, row, fold);
    SelectedConcat(q + c + m, r, row, fold);
    SelectedConcat(q + c + m + r, j, row, fold);
    SelectedConcat(FieldConditions(filters), if ExcludesPrivate(filters) then [NotPrivate] else [], row, fold);
  }

  lemma QueryAsked(filters: Filters)
    ensures WellTyped(filters) ==> forall row, fold :: KeepsSpecials(fold) ==>
      (Selected(Query(filters), row, fold) <==> Asked(filters, row, fold))
  {
    if WellTyped(filters) {
      forall row, fold | KeepsSpecials(fold)
        ensures Selected(Query(filters), row, fold) <==> Asked(filters, row, fold)
      {
        QueryMeaning(filters, row, fold);
      }
    }
  }

  /** So the count is the number of those rows. */
  lemma CountMeaning(table: seq<MemberRow>, filters: Filters, fold: char -> char)
    requires WellTyped(filters) && KeepsSpecials(fold)
    ensures CountRows(table, Query(filters), fold) == |set i: nat | i < |table| && Asked(filters, table[i], fold)|
  {
    forall i: nat | i < |table|
      ensures Selected(Query(filters), table[i], fold) <==> Asked(filters, table[i], fold)
    {
      QueryMeaning(filters, table[i], fold);
    }
    hide Query, Selected, Asked;
    var p := SelectedBy(Query(filters), fold);
    CountIsSize(table, p);
    assert Positions(table, p) == set i: nat | i < |table| && Asked(filters, table[i], fold);
  }

  // ---- when two filters with one key are one query ----

  /** The filter names exclude_private with an explicit None. */
  predicate PrivateIsNone(filters: Filters) { Lookup(filters, "exclude_private") == Some(Absent) }

  lemma {:induction false} LookupMeaning(filters: Filters, name: string, v: Value)
    requires WellTyped(filters)
    ensures Lookup(filters, name) == Some(v) <==> Field(name, v) in filters
  {
    if |filters| > 0 {
      var n := |filters| - 1;
      LookupMeaning(filters[..n], name, v);
      assert filters == filters[..n] + [filters[n]];
      assert forall f :: f in filters[..n] ==> f.name != filters[n].name;
    }
  }

  /** Filters with the same given fields read the same, field by field, up to a missing field and an explicit None. */
  lemma SameLookup(f: Filters, g: Filters, name: string)
    requires WellTyped(f) && WellTyped(g) && GivenFields(f) == GivenFields(g)
    ensures Lookup(f, name) == Lookup(g, name) || (Missing(f, name) && Missing(g, name))
  {
    var v, w := Lookup(f, name), Lookup(g, name);
    hide Lookup;
    if v.Some? && v.value != Absent {
      LookupMeaning(f, name, v.value);
      LookupMeaning(g, name, v.value);
      assert Field(name, v.value) in GivenFields(f);
    }
    if w.Some? && w.value != Absent {
      LookupMeaning(f, name, w.value);
      LookupMeaning(g, name, w.value);
      assert Field(name, w.value) in GivenFields(g);
    }
  }

  predicate Missing(filters: Filters, name: string) { Lookup(filters, name) in {None, Some(Absent)} }

  const TEXT_NAMES := {"q", "major", "company", "industry", "region", "job_title"}

  lemma SameFieldConditions(f: Filters, g: Filters)
    requires forall name :: name in TEXT_NAMES ==> TextOf(f, name) == TextOf(g, name)
    requires CohortCondition(f) == CohortCondition(g)
    ensures FieldConditions(f) == FieldConditions(g)
  {
    hide TextOf, CohortCondition, SearchPattern;
    assert forall i :: 0 <= i < |COLUMN_KEYS| ==> COLUMN_KEYS[i].0 in TEXT_NAMES;
    SameColumnConditions(f, g, COLUMN_KEYS);
  }

  lemma {:induction false} SameColumnConditions(f: Filters, g: Filters, keys: seq<(string, Column)>)
    requires forall i :: 0 <= i < |keys| ==> TextOf(f, keys[i].0) == TextOf(g, keys[i].0)
    ensures ColumnConditions(f, keys) == ColumnConditions(g, keys)
  {
    hide TextOf, SearchPattern;
    if |keys| > 0 {
      var n := |keys| - 1;
      SameColumnConditions(f, g, keys[..n]);
      assert TextOf(f, keys[n].0) == TextOf(g, keys[n].0);
    }
  }

  lemma SameReadings(f: Filters, g: Filters, name: string)
    requires Lookup(f, name) == Lookup(g, name) || (Missing(f, name) && Missing(g, name))
    ensures TextOf(f, name) == TextOf(g, name)
    ensures name == "cohort" ==> CohortCondition(f) == CohortCondition(g)
    ensures name == "exclude_private" ==>
      (ExcludesPrivate(f) == ExcludesPrivate(g) <==> (PrivateIsNone(f) <==> PrivateIsNone(g)))
  {
    hide Lookup;
  }

  /** Filters with the same cache key are the same query exactly when both or neither name
      exclude_private with an explicit None: the key drops that None and the query reads it as false. */
  lemma SameKeySameQueryIff(f: Filters, g: Filters)
    requires WellTyped(f) && WellTyped(g) && KeyOf(f) == KeyOf(g)
    ensures Query(f) == Query(g) <==> (PrivateIsNone(f) <==> PrivateIsNone(g))
  {
    hide KeyOf, WellTyped, GivenFields, Lookup, TextOf, CohortCondition;
    hide ExcludesPrivate, PrivateIsNone, FieldConditions;
    KeyIsGivenFields(f, g);
    forall name
      ensures TextOf(f, name) == TextOf(g, name)
    {
      SameLookup(f, g, name);
      SameReadings(f, g, name);
    }
    SameLookup(f, g, "cohort");
    SameReadings(f, g, "cohort");
    SameFieldConditions(f, g);
    SameLookup(f, g, "exclude_private");
    SameReadings(f, g, "exclude_private");
    QueryParts(f, g);
  }

  lemma QueryParts(f: Filters, g: Filters)
    requires FieldConditions(f) == FieldConditions(g)
    ensures Query(f) == Query(g) <==> ExcludesPrivate(f) == ExcludesPrivate(g)
  {
    hide FieldConditions, ExcludesPrivate;
    assert |Query(f)| == |FieldConditions(f)| + (if ExcludesPrivate(f) then 1 else 0);
    assert |Query(g)| == |FieldConditions(g)| + (if ExcludesPrivate(g) then 1 else 0);
  }

  /** The failing pair: one key, two queries, and a private member whom only one of them counts. */
  lemma NoneCountsPrivateMembers(row: MemberRow, fold: char -> char)
    requires row.visibility == Private
    ensures var none := [Field("exclude_private", Absent)];
      && WellTyped(none) && WellTyped([]) && KeyOf(none) == KeyOf([])
      && CountRows([row], Query(none), fold) == 1 && CountRows([row], Query([]), fold) == 0
  {
    hide KeyOf, WellTyped, Query, CountRows, Selected;
    OnlyNone();
    NoneHasNoKey();
    CountOne(row, [], fold);
    CountOne(row, [NotPrivate], fold);
    SelectedPrivate(row, fold);
  }

  lemma NoneHasNoKey()
    ensures var none := [Field("exclude_private", Absent)];
      WellTyped(none) && WellTyped([]) && KeyOf(none) == KeyOf([])
  {
    var none := [Field("exclude_private", Absent)];
    assert GivenFields(none) == GivenFields([]);
    hide KeyOf;
    KeyIsGivenFields(none, []);
  }

  lemma SelectedPrivate(row: MemberRow, fold: char -> char)
    requires row.visibility == Private
    ensures Selected([], row, fold) && !Selected([NotPrivate], row, fold)
  {
    assert !Selects([NotPrivate][0], row, fold);
  }

  lemma OnlyNone()
    ensures Query([Field("exclude_private", Absent)]) == [] && Query([]) == [NotPrivate]
  {
    var none := [Field("exclude_private", Absent)];
    assert none[..0] == [];
    forall name
      ensures TextOf(none, name) == "" == TextOf([], name)
    {
      assert Lookup(none, name) == if name == "exclude_private" then Some(Absent) else None;
    }
    CohortIsNotPrivate();
    SameFieldConditions(none, []);
    NoConditions();
    hide FieldConditions, TextOf;
  }

  lemma CohortIsNotPrivate()
    ensures CohortCondition([Field("exclude_private", Absent)]) == CohortCondition([])
  {
    assert [Field("exclude_private", Absent)][..0] == [];
  }

  lemma NoConditions()
    ensures FieldConditions([]) == []
  {
    assert forall name, columns :: TextCondition([], name, columns) == [];
    NoColumnConditions(COLUMN_KEYS);
    hide ColumnConditions;
  }

  lemma {:induction false} NoColumnConditions(keys: seq<(string, Column)>)
    ensures ColumnConditions([], keys) == []
  {
    if |keys| > 0 {
      NoColumnConditions(keys[..|keys| - 1]);
    }
  }

  lemma CountOne(row: MemberRow, conds: seq<Condition>, fold: char -> char)
    ensures CountRows([row], conds, fold) == if Selected(conds, row, fold) then 1 else 0
  {
    hide Selected;
    assert [] + [row] == [row];
    CountAppend([], row, SelectedBy(conds, fold));
  }

  /** The other way round keys are finer than queries: a sort order or an empty text changes the key and
      not the query, which costs a miss and never a wrong answer. */
  lemma IrrelevantFieldChangesKey(f: Filters, extra: Field)
    requires WellTyped(f + [extra]) && (extra.value == Str("") || (extra.name == "sort" && extra.value.Str?))
    ensures Query(f + [extra]) == Query(f) && KeyOf(f + [extra]) != KeyOf(f)
  {
    ExtraField(f, extra);
    hide KeyOf, GivenFields;
    KeyIsGivenFields(f + [extra], f);
    hide WellTyped;
    ExtraReads(f, extra);
    SameFieldConditions(f + [extra], f);
    QueryParts(f + [extra], f);
  }

  lemma ExtraField(f: Filters, extra: Field)
    requires WellTyped(f + [extra]) && Given(extra)
    ensures WellTyped(f) && GivenFields(f + [extra]) != GivenFields(f)
    ensures Lookup(f, extra.name) == None && WellTypedField(extra)
  {
    var g := f + [extra];
    assert g[|f|] == extra && forall i :: 0 <= i < |f| ==> g[i] == f[i];
    assert extra !in f;
    assert extra in GivenFields(g) && extra !in GivenFields(f);
    NotListed(f, extra.name);
  }

  lemma {:induction false} NotListed(f: Filters, name: string)
    requires forall i :: 0 <= i < |f| ==> f[i].name != name
    ensures Lookup(f, name) == None
  {
    if |f| > 0 {
      NotListed(f[..|f| - 1], name);
    }
  }

  lemma ExtraReads(f: Filters, extra: Field)
    requires Lookup(f, extra.name) == None && WellTypedField(extra)
    requires extra.value == Str("") || (extra.name == "sort" && extra.value.Str?)
    ensures forall name :: name in TEXT_NAMES ==> TextOf(f + [extra], name) == TextOf(f, name)
    ensures CohortCondition(f + [extra]) == CohortCondition(f) && ExcludesPrivate(f + [extra]) == ExcludesPrivate(f)
  {
    hide Lookup;
    forall name
      ensures name in TEXT_NAMES ==> TextOf(f + [extra], name) == TextOf(f, name)
    {
      LookupAppended(f, extra, name);
      SortIsNoText();
    }
    LookupAppended(f, extra, "cohort");
    LookupAppended(f, extra, "exclude_private");
  }

  lemma LookupAppended(f: Filters, extra: Field, name: string)
    ensures Lookup(f + [extra], name) == if name == extra.name then Some(extra.value) else Lookup(f, name)
  {
    assert (f + [extra])[..|f|] == f;
  }

  lemma SortIsNoText()
    ensures "sort" !in TEXT_NAMES
  {
    assert forall name :: name in TEXT_NAMES ==> name[0] != 's';
  }
}
