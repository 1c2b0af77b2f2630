/** The canonical cache key of a member filter: None dropped, values turned to text, items sorted.
    Two well-typed filters get the same key exactly when they hold the same fields other than None. */
module FilterKeys {
  import opened Prelude

  /** A filter value; Absent is None. */
  datatype Value = Absent | Flag(b: bool) | Num(n: int) | Str(s: string)

  /** A filter dictionary in insertion order. */
  datatype Field = Field(name: string, value: Value)

  /** A key item: name and text. */
  datatype Item = Item(name: string, text: string)

  type Filters = seq<Field>

  // ---- str(int) ----

  function Digit(d: nat): char
    requires d < 10
  {
    (d + '0' as int) as char
  }

  function NatText(n: nat): string {
    if n < 10 then [Digit(n)] else NatText(n / 10) + [Digit(n % 10)]
  }

  function IntText(n: int): string { if n < 0 then "-" + NatText(-n) else NatText(n) }

  function NatValue(s: string): int {
    if |s| == 0 then 0 else NatValue(s[..|s| - 1]) * 10 + (s[|s| - 1] as int - '0' as int)
  }

  lemma {:induction false} NatTextReads(n: nat)
    ensures NatText(n) != "" && NatText(n)[0] != '-' && NatValue(NatText(n)) == n
  {
    if n < 10 {
      assert [Digit(n)][..0] == "";
    } else {
      NatTextReads(n / 10);
      var t := NatText(n);
      assert t[..|t| - 1] == NatText(n / 10);
    }
  }

  lemma IntTextInjective(m: int, n: int)
    ensures IntText(m) == IntText(n) ==> m == n
  {
    NatTextReads(if m < 0 then -m else m);
    NatTextReads(if n < 0 then -n else n);
    assert m < 0 ==> IntText(m)[0] == '-' && IntText(m)[1..] == NatText(-m);
    assert n < 0 ==> IntText(n)[0] == '-' && IntText(n)[1..] == NatText(-n);
  }

  // ---- string and item order ----

  predicate TextLe(a: string, b: string) {
    if a == "" then true
    else if b == "" then false
    else a[0] < b[0] || (a[0] == b[0] && TextLe(a[1..], b[1..]))
  }

  lemma {:induction false} TextOrder(a: string, b: string, c: string)
    ensures TextLe(a, b) || TextLe(b, a)
    ensures TextLe(a, b) && TextLe(b, a) ==> a == b
    ensures TextLe(a, b) && TextLe(b, c) ==> TextLe(a, c)
  {
    if a != "" && b != "" {
      TextOrder(a[1..], b[1..], if c == "" then "" else c[1..]);
      assert a == [a[0]] + a[1..] && b == [b[0]] + b[1..];
    }
  }

  /** Python compares the (name, text) tuples component by component. */
  predicate ItemLe(x: Item, y: Item) {
    if x.name == y.name then TextLe(x.text, y.text) else TextLe(x.name, y.name)
  }

  lemma ItemOrder(x: Item, y: Item, z: Item)
    ensures ItemLe(x, y) || ItemLe(y, x)
    ensures ItemLe(x, y) && ItemLe(y, x) ==> x == y
    ensures ItemLe(x, y) && ItemLe(y, z) ==> ItemLe(x, z)
  {
    TextOrder(x.name, y.name, z.name);
    TextOrder(y.name, z.name, x.name);
    TextOrder(x.text, y.text, z.text);
  }

  function Insert(x: Item, s: seq<Item>): seq<Item> {
    if s == [] || ItemLe(x, s[0]) then [x] + s else [s[0]] + Insert(x, s[1..])
  }

  /** items.sort() */
  function Sort(s: seq<Item>): seq<Item> {
    if s == [] then [] else Insert(s[0], Sort(s[1..]))
  }

  /** Sorted without duplicates: each item is at most every later one, and differs from it. */
  ghost predicate Ascending(s: seq<Item>) {
    forall i, j :: 0 <= i < j < |s| ==> ItemLe(s[i], s[j]) && s[i] != s[j]
  }

  lemma AscendingCons(x: Item, s: seq<Item>)
    requires Ascending(s) && x !in s && (s != [] ==> ItemLe(x, s[0]))
    ensures Ascending([x] + s)
  {
    forall j | 0 <= j < |s|
      ensures ItemLe(x, s[j])
    {
      ItemOrder(x, s[0], s[j]);
    }
  }

  lemma {:induction false} InsertMeaning(x: Item, s: seq<Item>)
    requires Ascending(s) && x !in s
    ensures Ascending(Insert(x, s)) && SetOf(Insert(x, s)) == SetOf(s) + {x}
  {
    if s == [] || ItemLe(x, s[0]) {
      AscendingCons(x, s);
      SetOfConcat([x], s);
    } else {
      InsertMeaning(x, s[1..]);
      var t := Insert(x, s[1..]);
      ItemOrder(x, s[0], x);
      assert s == [s[0]] + s[1..];
      SetOfConcat([s[0]], s[1..]);
      SetOfConcat([s[0]], t);
      assert s[0] !in s[1..] && t[0] in SetOf(t);
      assert s[0] !in SetOf(t);
      assert ItemLe(s[0], t[0]) by {
        if t[0] != x { assert t[0] in s[1..]; }
      }
      AscendingCons(s[0], t);
    }
  }

  lemma {:induction false} SortMeaning(s: seq<Item>)
    requires Distinct(s)
    ensures Ascending(Sort(s)) && SetOf(Sort(s)) == SetOf(s)
  {
    if s != [] {
      SortMeaning(s[1..]);
      assert s == [s[0]] + s[1..];
      SetOfConcat([s[0]], s[1..]);
      assert s[0] !in SetOf(Sort(s[1..])) by { assert s[0] !in s[1..]; }
      InsertMeaning(s[0], Sort(s[1..]));
    }
  }

  /** A set of items has only one ascending listing. */
  lemma {:induction false} AscendingUnique(s: seq<Item>, t: seq<Item>)
    requires Ascending(s) && Ascending(t) && SetOf(s) == SetOf(t)
    ensures s == t
  {
    SetOfEmpty(s);
    SetOfEmpty(t);
    if s != [] {
      HeadIsLeast(s, t);
      HeadIsLeast(t, s);
      ItemOrder(s[0], t[0], s[0]);
      TailSet(s);
      TailSet(t);
      AscendingUnique(s[1..], t[1..]);
      assert s == [s[0]] + s[1..] && t == [t[0]] + t[1..];
    }
  }

  lemma HeadIsLeast(s: seq<Item>, t: seq<Item>)
    requires s != [] && t != [] && Ascending(s) && SetOf(s) == SetOf(t)
    ensures ItemLe(s[0], t[0])
  {
    assert t[0] in SetOf(s);
    var i :| 0 <= i < |s| && s[i] == t[0];
    ItemOrder(s[0], s[0], s[0]);
  }

  lemma TailSet(s: seq<Item>)
    requires s != [] && Ascending(s)
    ensures SetOf(s[1..]) == SetOf(s) - {s[0]}
  {
    assert s == [s[0]] + s[1..];
    SetOfConcat([s[0]], s[1..]);
  }

  // ---- the key ----

  function ValueText(v: Value): string {
    match v
    case Absent => "None"
    case Flag(b) => if b then "1" else "0"
    case Num(n) => IntText(n)
    case Str(s) => s
  }

  function AsItem(f: Field): Item { Item(f.name, ValueText(f.value)) }

  predicate Given(f: Field) { f.value != Absent }

  function ItemsOf(filters: Filters): seq<Item> {
    var given := Filter(filters, Given);
    seq(|given|, i requires 0 <= i < |given| => AsItem(given[i]))
  }

  function KeyOf(filters: Filters): seq<Item> { Sort(ItemsOf(filters)) }

  /** The fields that are not None; the query itself is in MemberQuery. */
  function GivenFields(filters: Filters): set<Field> { set f | f in filters && Given(f) }

  function ImageOf(fields: set<Field>): set<Item> { set f | f in fields :: AsItem(f) }

  /** The declared type of a field decides which values it can hold. */
  predicate WellTypedField(f: Field) {
    match f.value
    case Absent => true
    case Num(_) => f.name == "cohort"
    case Flag(_) => f.name == "exclude_private"
    case Str(_) => f.name != "cohort" && f.name != "exclude_private"
  }

  /** A dictionary: names are distinct, and values have the declared types. */
  ghost predicate WellTyped(filters: Filters) {
    && (forall i, j :: 0 <= i < j < |filters| ==> filters[i].name != filters[j].name)
    && (forall i :: 0 <= i < |filters| ==> WellTypedField(filters[i]))
  }

  lemma AsItemInjective(f: Field, g: Field)
    requires WellTypedField(f) && WellTypedField(g) && Given(f) && Given(g)
    ensures AsItem(f) == AsItem(g) ==> f == g
  {
    if f.value.Num? && g.value.Num? {
      IntTextInjective(f.value.n, g.value.n);
    }
  }

  lemma {:induction false} GivenNames(filters: Filters)
    requires WellTyped(filters)
    ensures WellTyped(Filter(filters, Given))
    ensures forall f :: f in Filter(filters, Given) <==> f in filters && Given(f)
  {
    if |filters| > 0 {
      var n := |filters| - 1;
      GivenNames(filters[..n]);
      assert filters == filters[..n] + [filters[n]];
      assert forall f :: f in filters[..n] ==> f.name != filters[n].name;
    }
  }

  lemma ItemsMeaning(filters: Filters)
    requires WellTyped(filters)
    ensures Distinct(ItemsOf(filters))
    ensures SetOf(ItemsOf(filters)) == ImageOf(GivenFields(filters))
  {
    GivenNames(filters);
    var given := Filter(filters, Given);
    var items := ItemsOf(filters);
    hide Filter;
    forall x | x in items
      ensures exists f :: f in GivenFields(filters) && AsItem(f) == x
    {
      var i :| 0 <= i < |items| && items[i] == x;
      assert given[i] in GivenFields(filters);
    }
    forall f | f in GivenFields(filters)
      ensures AsItem(f) in items
    {
      var i :| 0 <= i < |given| && given[i] == f;
      assert items[i] == AsItem(f);
    }
  }

  /** The key ignores order and None, and nothing else. */
  lemma KeyIsGivenFields(f: Filters, g: Filters)
    requires WellTyped(f) && WellTyped(g)
    ensures KeyOf(f) == KeyOf(g) <==> GivenFields(f) == GivenFields(g)
  {
    ItemsMeaning(f);
    ItemsMeaning(g);
    SortMeaning(ItemsOf(f));
    SortMeaning(ItemsOf(g));
    if GivenFields(f) == GivenFields(g) {
      AscendingUnique(KeyOf(f), KeyOf(g));
    }
    if KeyOf(f) == KeyOf(g) {
      ImageIncluded(f, g);
      ImageIncluded(g, f);
    }
  }

  lemma ImageIncluded(f: Filters, g: Filters)
    requires WellTyped(f) && WellTyped(g)
    requires ImageOf(GivenFields(f)) == ImageOf(GivenFields(g))
    ensures GivenFields(f) <= GivenFields(g)
  {
    forall x | x in GivenFields(f)
      ensures x in GivenFields(g)
    {
      assert AsItem(x) in ImageOf(GivenFields(f));
      var y :| y in GivenFields(g) && AsItem(y) == AsItem(x);
      AsItemInjective(x, y);
    }
  }
}
