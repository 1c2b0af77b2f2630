/** Role strings: normalising, closing under the hierarchy, serialising and reading back. */
module Roles {
  import opened Prelude
  import opened CommaText

  const ADMIN_PERMISSION_TOKENS: set<string> := {
    "admin_posts", "admin_events", "admin_hero", "admin_notifications",
    "admin_signup", "admin_roles", "admin_profile", "admin_support"}

  const ALLOWED_ROLE_TOKENS: set<string> := {"member", "admin", "super_admin"} + ADMIN_PERMISSION_TOKENS

  /** What callers pass for roles: a column's text, a list (None for an entry that is not a
      string), or anything else. */
  datatype RolesValue = Text(s: string) | Items(items: seq<Option<string>>) | Other

  datatype Grade = MemberGrade | AdminGrade | SuperAdminGrade

  datatype RoleProfile = RoleProfile(grade: Grade, permissions: set<string>)

  function CleanParts(parts: seq<string>): seq<string> {
    if |parts| == 0 then []
    else
      var last := Strip(parts[|parts| - 1]);
      CleanParts(parts[..|parts| - 1]) + (if last == "" then [] else [Lower(last)])
  }

  function Strings(items: seq<Option<string>>): seq<string> {
    if |items| == 0 then []
    else
      var last := items[|items| - 1];
      Strings(items[..|items| - 1]) + (if last.Some? then [last.value] else [])
  }

  function NormalizeRoles(value: RolesValue): seq<string> {
    match value
    case Text(s) => Dedupe(CleanParts(Split(s)))
    case Items(items) => Dedupe(CleanParts(Strings(items)))
    case Other => []
  }

  function EnsureMemberRole(roles: seq<string>): seq<string> {
    if "member" in roles then roles else ["member"] + roles
  }

  function ParseRoles(raw: RolesValue): RoleProfile {
    var tokens := SetOf(NormalizeRoles(raw));
    RoleProfile(
      if "super_admin" in tokens then SuperAdminGrade
      else if "admin" in tokens then AdminGrade else MemberGrade,
      tokens * ADMIN_PERMISSION_TOKENS)
  }

  function SerializeRoles(roles: seq<string>): string { Join(Dedupe(roles)) }

  predicate HasPermission(raw: RolesValue, permission: string, allowAdminFallback: bool) {
    var profile := ParseRoles(raw);
    profile.grade == SuperAdminGrade
    || permission in profile.permissions
    || (allowAdminFallback && profile.grade == AdminGrade)
  }

  predicate Allowed(t: string) { t in ALLOWED_ROLE_TOKENS }

  function InSet(tokens: set<string>): string -> bool { (t: string) => t in tokens }

  /** super_admin implies admin and every permission; permissions need admin. */
  function Closure(tokens: set<string>): set<string> {
    if "super_admin" in tokens then tokens + {"admin"} + ADMIN_PERMISSION_TOKENS
    else if "admin" in tokens then tokens
    else tokens - ADMIN_PERMISSION_TOKENS
  }

  /** The tokens kept in their order before the closure's additions are appended. */
  function Kept(value: RolesValue): seq<string> {
    var filtered := Filter(NormalizeRoles(value), Allowed);
    Filter(filtered, InSet(Closure(SetOf(filtered))))
  }

  function Missing(value: RolesValue): set<string> {
    Closure(SetOf(Filter(NormalizeRoles(value), Allowed))) - SetOf(Kept(value))
  }

  /** out is what normalize_assignable_roles may return: the additions come from a loop over a
      Python set, whose order is not fixed. */
  ghost predicate Assignable(value: RolesValue, out: seq<string>) {
    exists added: seq<string> ::
      Distinct(added) && SetOf(added) == Missing(value) && out == EnsureMemberRole(Kept(value) + added)
  }

  method DedupePreserveOrder(items: seq<string>) returns (out: seq<string>)
    ensures out == Dedupe(items)
    ensures Distinct(out) && InOrderOf(items, out) && forall t :: t in out <==> t in items
  {
    hide InOrderOf, Distinct, PositionOf;
    var seen: set<string> := {};
    out := [];
    for i := 0 to |items|
      invariant out == Dedupe(items[..i])
      invariant seen == SetOf(out)
    {
      assert items[..i + 1][..i] == items[..i];
      if items[i] !in seen {
        seen := seen + {items[i]};
        out := out + [items[i]];
      }
    }
    assert items[..|items|] == items;
    DedupeMeaning(items);
    DedupeOrder(items);
  }

  /** Walks the missing tokens in an arbitrary order, as the source does. */
  method NormalizeAssignableRoles(value: RolesValue) returns (out: seq<string>)
    ensures Assignable(value, out) && AssignableTold(value, out)
  {
    hide AssignableTold;
    var filtered := Filter(NormalizeRoles(value), Allowed);
    var tokens := SetOf(filtered);
    if "super_admin" in tokens {
      tokens := tokens + {"admin"};
      tokens := tokens + ADMIN_PERMISSION_TOKENS;
    } else if "admin" !in tokens {
      tokens := tokens - ADMIN_PERMISSION_TOKENS;
    }
    assert tokens == Closure(SetOf(filtered));
    out := Filter(filtered, InSet(tokens));
    var added := AppendAll(tokens - SetOf(out));
    out := EnsureMemberRole(out + added);
    AssignableTokens(value, out);
  }

  /** The tokens of a set, one by one, in some order. */
  method AppendAll(tokens: set<string>) returns (added: seq<string>)
    ensures Distinct(added) && SetOf(added) == tokens
  {
    var rest := tokens;
    added := [];
    while rest != {}
      invariant Distinct(added) && SetOf(added) !! rest && SetOf(added) + rest == tokens
      decreases rest
    {
      var t :| t in rest;
      rest := rest - {t};
      SetOfConcat(added, [t]);
      assert SetOf([t]) == {t};
      DistinctConcat(added, [t]);
      added := added + [t];
    }
  }

  // ---- tokens ----

  /** Lower-case letters and underscores only, so no step of parsing changes it. */
  ghost predicate PlainToken(t: string) {
    t != "" && forall i :: 0 <= i < |t| ==> 'a' <= t[i] <= 'z' || t[i] == '_'
  }

  lemma AllowedIsPlain(t: string)
    requires Allowed(t)
    ensures PlainToken(t)
  {
  }

  lemma PlainUnchanged(t: string)
    requires PlainToken(t)
    ensures Strip(t) == t && Lower(t) == t && CommaFree(t)
  {
  }

  lemma {:induction false} PlainPartsUnchanged(parts: seq<string>)
    requires forall i :: 0 <= i < |parts| ==> PlainToken(parts[i])
    ensures CleanParts(parts) == parts
  {
    if |parts| > 0 {
      PlainPartsUnchanged(parts[..|parts| - 1]);
      PlainUnchanged(parts[|parts| - 1]);
    }
  }

  function AsItems(roles: seq<string>): seq<Option<string>> {
    seq(|roles|, i requires 0 <= i < |roles| => Some(roles[i]))
  }

  lemma {:induction false} StringsOfItems(roles: seq<string>)
    ensures Strings(AsItems(roles)) == roles
  {
    if |roles| > 0 {
      var n := |roles| - 1;
      StringsOfItems(roles[..n]);
      assert AsItems(roles)[..n] == AsItems(roles[..n]);
    }
  }

  // ---- role closure ----

  /** Known tokens with member, closed upward for super_admin and without permissions unless admin. */
  ghost predicate ClosedSet(tokens: set<string>) {
    && tokens <= ALLOWED_ROLE_TOKENS
    && "member" in tokens
    && ("super_admin" in tokens ==> tokens == ALLOWED_ROLE_TOKENS)
    && ("admin" !in tokens ==> tokens !! ADMIN_PERMISSION_TOKENS)
  }

  ghost predicate Closed(out: seq<string>) { Distinct(out) && ClosedSet(SetOf(out)) }

  /** The known tokens of the request, closed. */
  function Target(value: RolesValue): set<string> {
    Closure(SetOf(NormalizeRoles(value)) * ALLOWED_ROLE_TOKENS)
  }

  lemma FilterSet(s: seq<string>, p: string -> bool)
    ensures SetOf(Filter(s, p)) == set t | t in s && p(t)
    ensures Distinct(s) ==> Distinct(Filter(s, p))
  {
    FilterMeaning(s, p);
  }

  lemma NormalDistinct(value: RolesValue)
    ensures Distinct(NormalizeRoles(value))
  {
    match value {
      case Text(s) => DedupeMeaning(CleanParts(Split(s)));
      case Items(items) => DedupeMeaning(CleanParts(Strings(items)));
      case Other =>
    }
  }

  lemma KeptMeaning(value: RolesValue)
    ensures Distinct(Kept(value))
    ensures SetOf(Kept(value)) <= Target(value) && Missing(value) == Target(value) - SetOf(Kept(value))
  {
    var normal := NormalizeRoles(value);
    NormalDistinct(value);
    FilterSet(normal, Allowed);
    var filtered := Filter(normal, Allowed);
    assert SetOf(filtered) == SetOf(normal) * ALLOWED_ROLE_TOKENS;
    FilterSet(filtered, InSet(Closure(SetOf(filtered))));
  }

  lemma EnsureMemberMeaning(all: seq<string>)
    requires Distinct(all)
    ensures Distinct(EnsureMemberRole(all)) && SetOf(EnsureMemberRole(all)) == SetOf(all) + {"member"}
  {
    if "member" !in all {
      DistinctConcat(["member"], all);
      SetOfConcat(["member"], all);
    }
  }

  /** Whatever order the additions come in, the result lists each token of the closed request,
      and member, exactly once. */
  lemma AssignableMeaning(value: RolesValue, out: seq<string>)
    requires Assignable(value, out)
    ensures Distinct(out) && SetOf(out) == Target(value) + {"member"}
  {
    var added :| Distinct(added) && SetOf(added) == Missing(value) && out == EnsureMemberRole(Kept(value) + added);
    KeptMeaning(value);
    hide *;
    DistinctConcat(Kept(value), added);
    SetOfConcat(Kept(value), added);
    EnsureMemberMeaning(Kept(value) + added);
  }

  lemma ClosureMeaning(tokens: set<string>)
    requires tokens <= ALLOWED_ROLE_TOKENS
    ensures ClosedSet(Closure(tokens) + {"member"})
    ensures "super_admin" in Closure(tokens) <==> "super_admin" in tokens
  {
  }

  /** So the result is closed, and it holds super_admin exactly when the request did. */
  lemma AssignableIsClosed(value: RolesValue, out: seq<string>)
    requires Assignable(value, out)
    ensures Closed(out)
    ensures "super_admin" in out <==> "super_admin" in NormalizeRoles(value)
  {
    AssignableMeaning(value, out);
    ClosureMeaning(SetOf(NormalizeRoles(value)) * ALLOWED_ROLE_TOKENS);
    assert "super_admin" in out <==> "super_admin" in SetOf(out);
    assert "super_admin" in ALLOWED_ROLE_TOKENS && "super_admin" != "member";
  }

  lemma ClosedPlain(out: seq<string>)
    requires Closed(out)
    ensures forall i :: 0 <= i < |out| ==> PlainToken(out[i]) && CommaFree(out[i])
  {
    forall i | 0 <= i < |out|
      ensures PlainToken(out[i]) && CommaFree(out[i])
    {
      assert out[i] in SetOf(out);
      AllowedIsPlain(out[i]);
      PlainUnchanged(out[i]);
    }
  }

  /** A closed list has nothing to normalise away and nothing to add. */
  lemma ClosedNormal(out: seq<string>)
    requires Closed(out)
    ensures NormalizeRoles(Items(AsItems(out))) == out && Filter(out, Allowed) == out
  {
    StringsOfItems(out);
    ClosedPlain(out);
    PlainPartsUnchanged(out);
    DedupeMeaning(out);
    assert forall t :: t in out ==> t in SetOf(out);
    FilterAll(out, Allowed);
  }

  lemma ClosedSetIsFixed(tokens: set<string>)
    requires ClosedSet(tokens)
    ensures Closure(tokens) == tokens
  {
  }

  lemma ClosedKept(out: seq<string>)
    requires Closed(out)
    ensures Kept(Items(AsItems(out))) == out && Missing(Items(AsItems(out))) == {}
  {
    ClosedNormal(out);
    ClosedSetIsFixed(SetOf(out));
    hide NormalizeRoles, Closure, ClosedSet;
    FilterAll(out, InSet(SetOf(out)));
  }

  /** Normalising a closed list again returns it unchanged, in the same order. */
  lemma ClosedIsFixed(out: seq<string>, again: seq<string>)
    requires Closed(out) && Assignable(Items(AsItems(out)), again)
    ensures again == out
  {
    var v := Items(AsItems(out));
    ClosedKept(out);
    assert "member" in SetOf(out);
    hide Kept, Missing, SetOf;
    var added :| Distinct(added) && SetOf(added) == Missing(v) && again == EnsureMemberRole(Kept(v) + added);
    SetOfEmpty(added);
    assert out + [] == out;
    MemberKept(out);
  }

  lemma MemberKept(out: seq<string>)
    requires "member" in SetOf(out)
    ensures EnsureMemberRole(out) == out
  {
  }

  /** normalize_assignable_roles is idempotent as a sequence. */
  lemma AssignableIdempotent(value: RolesValue, out: seq<string>, again: seq<string>)
    requires Assignable(value, out) && Assignable(Items(AsItems(out)), again)
    ensures again == out
  {
    AssignableIsClosed(value, out);
    ClosedIsFixed(out, again);
  }

  /** What is serialised reads back unchanged: the same tokens in the same order, the same
      comma-separated tokens for the counting query, and the same grade and permissions. */
  lemma SerializedReadsBack(out: seq<string>)
    requires Closed(out)
    ensures NormalizeRoles(Text(SerializeRoles(out))) == out
    ensures Split(SerializeRoles(out)) == out
    ensures var p := ParseRoles(Text(SerializeRoles(out)));
      && (p.grade == SuperAdminGrade <==> "super_admin" in out)
      && (p.grade == MemberGrade <==> "admin" !in out)
      && p.permissions == SetOf(out) * ADMIN_PERMISSION_TOKENS
  {
    assert out != [] by { assert "member" in SetOf(out); }
    ClosedPlain(out);
    DedupeMeaning(out);
    SplitJoin(out);
    PlainPartsUnchanged(out);
    assert "super_admin" in SetOf(out) ==> "admin" in SetOf(out);
  }

  /** Without the admin fallback, a stored role list grants exactly its own permissions; with
      it, every admin has them all. */
  lemma PermissionsOfSerialized(out: seq<string>, permission: string)
    requires Closed(out) && permission in ADMIN_PERMISSION_TOKENS
    ensures HasPermission(Text(SerializeRoles(out)), permission, false) <==> permission in out
    ensures HasPermission(Text(SerializeRoles(out)), permission, true) <==> "admin" in out
  {
    SerializedReadsBack(out);
    hide NormalizeRoles, SerializeRoles, Distinct;
    assert forall t :: t in out <==> t in SetOf(out);
  }

  // ---- agreement with the exact-token query ----

  lemma {:induction false} CleanKeepsPlain(parts: seq<string>, t: string)
    requires t in parts && PlainToken(t)
    ensures t in CleanParts(parts)
  {
    var n := |parts| - 1;
    if parts[n] == t {
      PlainUnchanged(t);
    } else {
      assert parts == parts[..n] + [parts[n]];
      CleanKeepsPlain(parts[..n], t);
    }
  }

  /** A text that holds super_admin as an exact token parses to the super_admin grade. */
  lemma ExactTokenGivesGrade(roles: string)
    requires "super_admin" in Split(roles)
    ensures ParseRoles(Text(roles)).grade == SuperAdminGrade
  {
    AllowedIsPlain("super_admin");
    CleanKeepsPlain(Split(roles), "super_admin");
    DedupeMeaning(CleanParts(Split(roles)));
  }

  // ---- reading and closing in plain terms ----

  /** What is read off one piece of text: nothing for blanks, else the stripped text in lower case. */
  function TokenOf(piece: string): Option<string> { if Strip(piece) == "" then None else Some(Lower(Strip(piece))) }

  lemma {:induction false} CleanPartsMeaning(parts: seq<string>)
    ensures forall t :: t in CleanParts(parts) <==> exists i :: 0 <= i < |parts| && TokenOf(parts[i]) == Some(t)
  {
    hide Strip, Lower;
    if |parts| > 0 {
      var n := |parts| - 1;
      CleanPartsMeaning(parts[..n]);
      forall t
        ensures t in CleanParts(parts) <==> exists i :: 0 <= i < |parts| && TokenOf(parts[i]) == Some(t)
      {
        assert TokenOf(parts[n]) == Some(t) ==> t in CleanParts(parts);
        assert t in CleanParts(parts[..n]) ==> t in CleanParts(parts);
        if i :| 0 <= i < |parts| && TokenOf(parts[i]) == Some(t) {
          if i < n { assert TokenOf(parts[..n][i]) == Some(t); }
        }
      }
    }
  }

  lemma {:induction false} StringsMeaning(items: seq<Option<string>>)
    ensures forall s :: s in Strings(items) <==> Some(s) in items
  {
    if |items| > 0 {
      var n := |items| - 1;
      StringsMeaning(items[..n]);
      assert items == items[..n] + [items[n]];
    }
  }

  /** The tokens of a text are those of its comma-separated pieces, the tokens of a list those of its
      strings, and anything else has none. */
  lemma NormalizeMeaning(value: RolesValue)
    ensures Distinct(NormalizeRoles(value))
    ensures value.Text? ==> forall t :: t in NormalizeRoles(value) <==>
      exists piece :: piece in Split(value.s) && TokenOf(piece) == Some(t)
    ensures value.Items? ==> forall t :: t in NormalizeRoles(value) <==>
      exists item :: Some(item) in value.items && TokenOf(item) == Some(t)
    ensures value.Other? ==> NormalizeRoles(value) == []
  {
    NormalDistinct(value);
    hide Split, TokenOf, CleanParts, Strings, Distinct;
    if value.Text? {
      PiecesMeaning(Split(value.s));
    } else if value.Items? {
      PiecesMeaning(Strings(value.items));
      StringsMeaning(value.items);
    }
  }

  lemma PiecesMeaning(parts: seq<string>)
    ensures forall t :: t in Dedupe(CleanParts(parts)) <==> exists piece :: piece in parts && TokenOf(piece) == Some(t)
  {
    CleanPartsMeaning(parts);
    DedupeMeaning(CleanParts(parts));
    hide CleanParts, TokenOf, Dedupe;
    forall t
      ensures t in Dedupe(CleanParts(parts)) <==> exists piece :: piece in parts && TokenOf(piece) == Some(t)
    {
      if piece :| piece in parts && TokenOf(piece) == Some(t) {
        var i :| 0 <= i < |parts| && parts[i] == piece;
        assert TokenOf(parts[i]) == Some(t);
      }
    }
  }

  /** The eight permissions an administrator can hold. */
  predicate IsPermission(t: string) {
    t in {"admin_posts", "admin_events", "admin_hero", "admin_notifications",
          "admin_signup", "admin_roles", "admin_profile", "admin_support"}
  }

  /** Grade and permissions, as they follow from the tokens. */
  lemma GradeMeaning(value: RolesValue, permission: string, fallback: bool)
    ensures var tokens, p := NormalizeRoles(value), ParseRoles(value);
      && (p.grade == SuperAdminGrade <==> "super_admin" in tokens)
      && (p.grade == AdminGrade <==> "admin" in tokens && "super_admin" !in tokens)
      && (permission in p.permissions <==> permission in tokens && IsPermission(permission))
      && (HasPermission(value, permission, fallback) <==>
            || "super_admin" in tokens
            || (permission in tokens && IsPermission(permission))
            || (fallback && "admin" in tokens))
  {
    hide NormalizeRoles;
    assert "super_admin" in SetOf(NormalizeRoles(value)) <==> "super_admin" in NormalizeRoles(value);
  }

  /** Which tokens an assignable list holds, token by token: member always; super_admin when asked for; admin
      when it or super_admin is; a permission when super_admin is, or when it is asked for together with admin;
      and nothing else. What was asked for comes first, in its order, after member if that was not asked for. */
  ghost predicate AssignableTold(value: RolesValue, out: seq<string>) {
    var asked := NormalizeRoles(value);
    && Distinct(out)
    && (forall t :: t in out <==>
          || t == "member"
          || (t == "super_admin" && "super_admin" in asked)
          || (t == "admin" && ("admin" in asked || "super_admin" in asked))
          || (IsPermission(t) && ("super_admin" in asked || (t in asked && "admin" in asked))))
    && exists kept, added :: KeepsOrder(asked, out, kept, added)
  }

  ghost predicate KeepsOrder(asked: seq<string>, out: seq<string>, kept: seq<string>, added: seq<string>) {
    && out == (if "member" in asked then [] else ["member"]) + kept + added
    && InOrderOf(asked, kept)
    && (forall t :: t in kept ==> t in asked)
    && (forall t :: t in added ==> t !in asked)
  }

  lemma ClosureTold(value: RolesValue)
    ensures var asked := NormalizeRoles(value);
      forall t :: t in Target(value) + {"member"} <==>
        || t == "member"
        || (t == "super_admin" && "super_admin" in asked)
        || (t == "admin" && ("admin" in asked || "super_admin" in asked))
        || (IsPermission(t) && ("super_admin" in asked || (t in asked && "admin" in asked)))
  {
    hide NormalizeRoles;
    var asked := NormalizeRoles(value);
    var tokens := SetOf(asked) * ALLOWED_ROLE_TOKENS;
    assert forall t :: t in tokens <==> t in asked && t in ALLOWED_ROLE_TOKENS;
  }

  lemma AssignableTokens(value: RolesValue, out: seq<string>)
    requires Assignable(value, out)
    ensures AssignableTold(value, out)
  {
    hide Target, SetOf, NormalizeRoles, Distinct, Kept, Missing, IsPermission, KeepsOrder, EnsureMemberRole;
    AssignableMeaning(value, out);
    ClosureTold(value);
    ElementsOf(out);
    var added :| Distinct(added) && SetOf(added) == Missing(value) && out == EnsureMemberRole(Kept(value) + added);
    AssignableOrder(value, out, added);
    hide Assignable;
    assert KeepsOrder(NormalizeRoles(value), out, Kept(value), added);
  }

  lemma ElementsOf(out: seq<string>)
    ensures forall t :: t in out <==> t in SetOf(out)
  {
  }

  lemma AssignableOrder(value: RolesValue, out: seq<string>, added: seq<string>)
    requires SetOf(added) == Missing(value) && out == EnsureMemberRole(Kept(value) + added)
    ensures "member" !in added && KeepsOrder(NormalizeRoles(value), out, Kept(value), added)
  {
    var kept := Kept(value);
    KeptOrder(value);
    ElementsOf(added);
    hide Kept, Missing, NormalizeRoles, InOrderOf, SetOf;
    assert "member" in kept + added <==> "member" in kept || "member" in added;
    assert [] + kept + added == kept + added && ["member"] + kept + added == ["member"] + (kept + added);
  }

  lemma KeptOrder(value: RolesValue)
    ensures var asked, kept := NormalizeRoles(value), Kept(value);
      && InOrderOf(asked, kept) && (forall t :: t in kept ==> t in asked)
      && ("member" in kept <==> "member" in asked) && "member" !in Missing(value)
      && (forall t :: t in Missing(value) ==> t !in asked)
  {
    var asked := NormalizeRoles(value);
    NormalDistinct(value);
    var filtered := Filter(asked, Allowed);
    FilterMeaning(asked, Allowed);
    FilterOrder(asked, Allowed);
    var tokens := Closure(SetOf(filtered));
    FilterMeaning(filtered, InSet(tokens));
    FilterOrder(filtered, InSet(tokens));
    ClosureStays(SetOf(filtered));
    hide NormalizeRoles, Filter, Closure, Distinct, InOrderOf, PositionOf;
    InOrderOfMore(asked, filtered, Kept(value));
    assert Allowed("member");
  }

  lemma ClosureStays(tokens: set<string>)
    requires tokens <= ALLOWED_ROLE_TOKENS
    ensures Closure(tokens) <= ALLOWED_ROLE_TOKENS
    ensures "member" in Closure(tokens) <==> "member" in tokens
  {
  }
}
