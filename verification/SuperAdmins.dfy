/** Role and status changes of members, and why the last active super_admin survives them. */
module SuperAdmins {
  import opened Prelude
  import opened CommaText
  import opened LikePatterns
  import opened Members
  import opened Roles

  datatype RoleError = NotFound | SelfDemotion | LastSuperAdmin | AlreadyExists | AlreadyActive | NotNullViolated

  /** The status field of an admin update: not sent, sent as null, or a value. */
  datatype StatusField = Unset | Null | To(status: MemberStatus)

  predicate IsSuper(m: Member) { ParseRoles(Text(m.roles)).grade == SuperAdminGrade }

  predicate ActiveSuper(m: Member) { m.status == Active && IsSuper(m) }

  predicate NamesSuper(roles: seq<string>) { "super_admin" in roles }

  /** What the counting query selects. */
  function Counted(role: string): Member -> bool {
    (m: Member) => m.status == Active && Like(Bounded(m.roles), TokenPattern(role))
  }

  function CountActiveWithRole(ms: seq<Member>, role: string): nat { Count(ms, Counted(role)) }

  /** Both guards: is this the change that takes the super_admin grade away from the last one? */
  predicate TooFewLeft(ms: seq<Member>) { CountActiveWithRole(ms, "super_admin") <= 1 }

  /** The administrative operations. out is the list normalize_assignable_roles produced; conflict
      says whether another unique column (email, phone) rejects the write. */
  datatype Op =
    | UpdateRoles(id: nat, actor: string, roles: seq<string>, out: seq<string>)
    | UpdateProfile(id: nat, status: StatusField, conflict: bool)
    | CreateDirect(studentId: string, email: string, roles: seq<string>, out: seq<string>)
    | ApproveSignup(studentId: string, email: string, conflict: bool)

  ghost predicate Possible(op: Op) {
    (op.UpdateRoles? || op.CreateDirect?) ==> Assignable(Items(AsItems(op.roles)), op.out)
  }

  /** The table afterwards, or why the operation was refused. */
  type Outcome = Result<seq<Member>, RoleError>

  function ApplyUpdateRoles(ms: seq<Member>, id: nat, actor: string, out: seq<string>): Outcome {
    if id >= |ms| then Err(NotFound)
    else
      var m := ms[id];
      if IsSuper(m) && !NamesSuper(out) then
        if m.studentId == actor then Err(SelfDemotion)
        else if TooFewLeft(ms) then Err(LastSuperAdmin)
        else Ok(ms[id := m.(roles := SerializeRoles(out))])
      else Ok(ms[id := m.(roles := SerializeRoles(out))])
  }

  function ApplyUpdateProfile(ms: seq<Member>, id: nat, status: StatusField, conflict: bool): Outcome {
    if id >= |ms| then Err(NotFound)
    else if status.To? && status.status != Active && ms[id].status == Active && IsSuper(ms[id]) && TooFewLeft(ms) then
      Err(LastSuperAdmin)
    else if conflict then Err(AlreadyExists)
    else match status
      case Unset => Ok(ms)
      case Null => Err(NotNullViolated)
      case To(s) => Ok(ms[id := ms[id].(status := s)])
  }

  function ApplyCreateDirect(ms: seq<Member>, studentId: string, email: string, out: seq<string>): Outcome {
    if MemberAt(ms, studentId) < |ms| then Err(AlreadyExists)
    else if EmailTaken(ms, email, |ms|) then Err(AlreadyExists)
    else Ok(ms + [Member(studentId, Some(email), SerializeRoles(out), Active)])
  }

  function ApplyApprove(ms: seq<Member>, studentId: string, email: string, conflict: bool): Outcome {
    var p := MemberAt(ms, studentId);
    if p < |ms| && ms[p].status == Active then Err(AlreadyActive)
    else if conflict then Err(AlreadyExists)
    else Ok(Admit(ms, studentId, email))
  }

  function Apply(ms: seq<Member>, op: Op): Outcome {
    match op
    case UpdateRoles(id, actor, _, out) => ApplyUpdateRoles(ms, id, actor, out)
    case UpdateProfile(id, status, conflict) => ApplyUpdateProfile(ms, id, status, conflict)
    case CreateDirect(studentId, email, _, out) => ApplyCreateDirect(ms, studentId, email, out)
    case ApproveSignup(studentId, email, conflict) => ApplyApprove(ms, studentId, email, conflict)
  }

  /** A refused operation is rolled back. */
  function After(ms: seq<Member>, op: Op): seq<Member> {
    match Apply(ms, op)
    case Ok(next) => next
    case Err(_) => ms
  }

  function Run(ms: seq<Member>, ops: seq<Op>): seq<Member> {
    if |ops| == 0 then ms else After(Run(ms, ops[..|ops| - 1]), ops[|ops| - 1])
  }

  ghost predicate HasActiveSuper(ms: seq<Member>) { exists i :: 0 <= i < |ms| && ActiveSuper(ms[i]) }

  // ---- the safety theorem ----

  /** A row the query counts has the super_admin grade. */
  lemma CountedIsSuper(m: Member)
    requires Counted("super_admin")(m)
    ensures ActiveSuper(m)
  {
    SuperAdminToken();
    TokenPatternIsExact(m.roles, "super_admin");
    ExactTokenGivesGrade(m.roles);
  }

  lemma SuperAdminToken()
    ensures PlainToken("super_admin") && CommaFree("super_admin")
  {
    AllowedIsPlain("super_admin");
    PlainUnchanged("super_admin");
  }

  /** If at least two rows are counted, one of them is not row i. */
  lemma {:induction false} AnotherCounted<T>(s: seq<T>, p: T -> bool, i: nat)
    requires Count(s, p) >= 2 && i < |s|
    ensures exists j :: 0 <= j < |s| && j != i && p(s[j])
  {
    if forall j :: 0 <= j < |s| && j != i ==> !p(s[j]) {
      var none: T -> bool := (x: T) => false;
      CountDiffer(s, s, p, none, i);
      CountZero(s, none);
      assert false;
    }
  }

  /** The guard leaves someone else: enough are counted, so another active super_admin exists. */
  lemma SomeoneElse(ms: seq<Member>, id: nat)
    requires id < |ms| && !TooFewLeft(ms)
    ensures exists j :: 0 <= j < |ms| && j != id && ActiveSuper(ms[j])
  {
    AnotherCounted(ms, Counted("super_admin"), id);
    var j :| 0 <= j < |ms| && j != id && Counted("super_admin")(ms[j]);
    CountedIsSuper(ms[j]);
  }

  lemma SerializedGrade(m: Member, out: seq<string>)
    requires Closed(out) && m.roles == SerializeRoles(out)
    ensures IsSuper(m) <==> NamesSuper(out)
  {
    hide Closed, SerializeRoles, NormalizeRoles;
    SerializedReadsBack(out);
  }

  lemma UpdateRolesKeeps(ms: seq<Member>, id: nat, actor: string, roles: seq<string>, out: seq<string>)
    requires HasActiveSuper(ms) && Assignable(Items(AsItems(roles)), out)
    requires ApplyUpdateRoles(ms, id, actor, out).Ok?
    ensures HasActiveSuper(ApplyUpdateRoles(ms, id, actor, out).value)
  {
    hide Assignable, AsItems, TooFewLeft, Closed, SerializeRoles, NormalizeRoles;
    var next := ApplyUpdateRoles(ms, id, actor, out).value;
    AssignableIsClosed(Items(AsItems(roles)), out);
    SerializedGrade(next[id], out);
    hide IsSuper, NamesSuper, NormalizeRoles;
    if IsSuper(ms[id]) && !NamesSuper(out) {
      SomeoneElse(ms, id);
      var j :| 0 <= j < |ms| && j != id && ActiveSuper(ms[j]);
      assert next[j] == ms[j];
    } else {
      var j :| 0 <= j < |ms| && ActiveSuper(ms[j]);
      assert ActiveSuper(next[j]);
    }
  }

  lemma UpdateProfileKeeps(ms: seq<Member>, id: nat, status: StatusField, conflict: bool)
    requires HasActiveSuper(ms) && ApplyUpdateProfile(ms, id, status, conflict).Ok?
    ensures HasActiveSuper(ApplyUpdateProfile(ms, id, status, conflict).value)
  {
    hide IsSuper, TooFewLeft;
    var next := ApplyUpdateProfile(ms, id, status, conflict).value;
    var i :| 0 <= i < |ms| && ActiveSuper(ms[i]);
    if i == id && status.To? && status.status != Active {
      SomeoneElse(ms, id);
      var j :| 0 <= j < |ms| && j != id && ActiveSuper(ms[j]);
      assert next[j] == ms[j];
    } else {
      assert ActiveSuper(next[i]);
    }
  }

  /** Adding an active member, or activating one, takes nothing away. */
  lemma ActivationKeeps(ms: seq<Member>, op: Op)
    requires HasActiveSuper(ms) && (op.CreateDirect? || op.ApproveSignup?)
    ensures HasActiveSuper(After(ms, op))
  {
    hide IsSuper, SerializeRoles;
    var i :| 0 <= i < |ms| && ActiveSuper(ms[i]);
    assert After(ms, op)[i] == ms[i];
  }

  lemma OpKeepsSuperAdmin(ms: seq<Member>, op: Op)
    requires HasActiveSuper(ms) && Possible(op)
    ensures HasActiveSuper(After(ms, op))
  {
    hide HasActiveSuper, ApplyUpdateRoles, ApplyUpdateProfile, Assignable;
    if op.CreateDirect? || op.ApproveSignup? {
      ActivationKeeps(ms, op);
    } else if Apply(ms, op).Ok? {
      match op
      case UpdateRoles(id, actor, roles, out) => UpdateRolesKeeps(ms, id, actor, roles, out);
      case UpdateProfile(id, status, conflict) => UpdateProfileKeeps(ms, id, status, conflict);
    }
  }

  /** Over every serial run of role changes, admin updates, direct creations and approvals, an
      active super_admin present at the start is never the last one lost. Nothing is assumed
      about the stored role strings. */
  lemma {:induction false} LastSuperAdminSurvives(ms: seq<Member>, ops: seq<Op>)
    requires HasActiveSuper(ms) && forall k :: 0 <= k < |ops| ==> Possible(ops[k])
    ensures HasActiveSuper(Run(ms, ops))
  {
    if |ops| > 0 {
      LastSuperAdminSurvives(ms, ops[..|ops| - 1]);
      OpKeepsSuperAdmin(Run(ms, ops[..|ops| - 1]), ops[|ops| - 1]);
    }
  }

  // ---- when a refusal is necessary ----

  /** The role column holds what serialize_roles wrote for some closed role list. */
  ghost predicate Canonical(m: Member) { exists out :: Closed(out) && m.roles == SerializeRoles(out) }

  ghost predicate AllCanonical(ms: seq<Member>) { forall i :: 0 <= i < |ms| ==> Canonical(ms[i]) }

  lemma PlainMemberIsCanonical()
    ensures Closed(["member"]) && SerializeRoles(["member"]) == "member"
  {
    assert SetOf(["member"]) == {"member"};
    assert ["member"][..0] == [];
  }

  /** Every write keeps the role columns canonical. */
  lemma CanonicalKept(ms: seq<Member>, op: Op)
    requires AllCanonical(ms) && Possible(op)
    ensures AllCanonical(After(ms, op))
  {
    if op.UpdateRoles? || op.CreateDirect? {
      AssignableIsClosed(Items(AsItems(op.roles)), op.out);
      assert Canonical(Member("", None, SerializeRoles(op.out), Active));
    }
    PlainMemberIsCanonical();
    assert Canonical(Member("", None, "member", Active));
    RolesWritten(ms, op);
    hide Canonical, After, SerializeRoles, Assignable;
    forall i | 0 <= i < |After(ms, op)|
      ensures Canonical(After(ms, op)[i])
    {
      var roles := After(ms, op)[i].roles;
      SameRolesSameForm(After(ms, op)[i], Member("", None, roles, Active));
      if i < |ms| && ms[i].roles == roles { SameRolesSameForm(ms[i], After(ms, op)[i]); }
    }
  }

  /** So canonical columns stay canonical over every run, and the exact guards below apply there. */
  lemma {:induction false} CanonicalAlways(ms: seq<Member>, ops: seq<Op>)
    requires AllCanonical(ms) && forall k :: 0 <= k < |ops| ==> Possible(ops[k])
    ensures AllCanonical(Run(ms, ops))
  {
    hide AllCanonical, After, Possible;
    if |ops| > 0 {
      CanonicalAlways(ms, ops[..|ops| - 1]);
      CanonicalKept(Run(ms, ops[..|ops| - 1]), ops[|ops| - 1]);
    }
  }

  lemma SameRolesSameForm(m: Member, n: Member)
    requires m.roles == n.roles
    ensures Canonical(m) <==> Canonical(n)
  {
  }

  /** The role column of every row after a step was there before or was written by it. */
  lemma RolesWritten(ms: seq<Member>, op: Op)
    ensures forall i :: 0 <= i < |After(ms, op)| ==>
      var roles := After(ms, op)[i].roles;
      || (i < |ms| && ms[i].roles == roles)
      || roles == "member"
      || ((op.UpdateRoles? || op.CreateDirect?) && roles == SerializeRoles(op.out))
  {
    hide IsSuper, SerializeRoles, TooFewLeft;
  }

  /** On canonical rows the query and the grade agree. */
  lemma CountedIffActiveSuper(m: Member)
    requires Canonical(m)
    ensures Counted("super_admin")(m) <==> ActiveSuper(m)
  {
    var out :| Closed(out) && m.roles == SerializeRoles(out);
    SuperAdminToken();
    SerializedReadsBack(out);
    TokenPatternIsExact(m.roles, "super_admin");
  }

  /** The guard trips exactly when the active super_admin in row id is the only one. */
  lemma GuardIsExact(ms: seq<Member>, id: nat)
    requires AllCanonical(ms) && id < |ms| && ActiveSuper(ms[id])
    ensures TooFewLeft(ms) <==> forall j :: 0 <= j < |ms| && j != id ==> !ActiveSuper(ms[j])
  {
    var p := Counted("super_admin");
    forall j | 0 <= j < |ms|
      ensures p(ms[j]) <==> ActiveSuper(ms[j])
    {
      CountedIffActiveSuper(ms[j]);
    }
    hide ActiveSuper, Counted;
    if forall j :: 0 <= j < |ms| && j != id ==> !ActiveSuper(ms[j]) {
      var none: Member -> bool := (m: Member) => false;
      CountDiffer(ms, ms, p, none, id);
      CountZero(ms, none);
    } else if TooFewLeft(ms) {
      var j :| 0 <= j < |ms| && j != id && ActiveSuper(ms[j]);
      OneFewer(ms, p, id, j);
    }
  }

  /** Two counted rows make a count of at least two. */
  lemma {:induction false} OneFewer<T>(s: seq<T>, p: T -> bool, i: nat, j: nat)
    requires i < |s| && j < |s| && i != j && p(s[i]) && p(s[j])
    ensures Count(s, p) >= 2
  {
    var n := |s| - 1;
    if i < n && j < n {
      OneFewer(s[..n], p, i, j);
    } else {
      var k := if i == n then j else i;
      assert s[..n][k] == s[k];
      CountZero(s[..n], p);
    }
  }

  function IsActiveSuper(): Member -> bool { (m: Member) => ActiveSuper(m) }

  function SuperCount(ms: seq<Member>): nat { Count(ms, IsActiveSuper()) }

  /** On canonical rows the query counts the active super_admins. */
  lemma QueryCountsSupers(ms: seq<Member>)
    requires AllCanonical(ms)
    ensures CountActiveWithRole(ms, "super_admin") == SuperCount(ms)
    ensures HasActiveSuper(ms) <==> SuperCount(ms) > 0
  {
    forall i | 0 <= i < |ms|
      ensures Counted("super_admin")(ms[i]) <==> IsActiveSuper()(ms[i])
    {
      CountedIffActiveSuper(ms[i]);
    }
    hide ActiveSuper, Counted, Canonical;
    CountPointwise(ms, ms, Counted("super_admin"), IsActiveSuper());
    SomeSuper(ms);
  }

  lemma SomeSuper(ms: seq<Member>)
    ensures HasActiveSuper(ms) <==> SuperCount(ms) > 0
  {
    hide ActiveSuper;
    CountZero(ms, IsActiveSuper());
    assert forall i :: 0 <= i < |ms| ==> (IsActiveSuper()(ms[i]) <==> ActiveSuper(ms[i]));
  }

  /** A role change by somebody else is refused as the last super_admin's exactly when it takes the
      grade from a super_admin, active or not, while at most one active super_admin exists. */
  lemma RoleGuardRefusesIff(ms: seq<Member>, id: nat, actor: string, out: seq<string>)
    requires AllCanonical(ms) && id < |ms| && ms[id].studentId != actor
    ensures ApplyUpdateRoles(ms, id, actor, out) == Err(LastSuperAdmin)
       <==> IsSuper(ms[id]) && !NamesSuper(out) && SuperCount(ms) <= 1
  {
    hide AllCanonical, IsSuper, SerializeRoles, NamesSuper, SuperCount, Count;
    QueryCountsSupers(ms);
  }

  /** Whether any active super_admin is left once row id has changed. */
  lemma SupersAfter(ms: seq<Member>, id: nat, m: Member)
    requires id < |ms|
    ensures SuperCount(ms[id := m]) + (if ActiveSuper(ms[id]) then 1 else 0)
         == SuperCount(ms) + (if ActiveSuper(m) then 1 else 0)
    ensures HasActiveSuper(ms[id := m]) <==> SuperCount(ms[id := m]) > 0
  {
    hide ActiveSuper;
    CountDiffer(ms, ms[id := m], IsActiveSuper(), IsActiveSuper(), id);
    SomeSuper(ms[id := m]);
  }

  /** Exactly when the role guard is right: its refusal means that no active super_admin would remain if
      and only if the demoted one is active or the number of active super_admins is not one. */
  lemma RoleGuardIsRightIff(ms: seq<Member>, id: nat, actor: string, out: seq<string>)
    requires AllCanonical(ms) && id < |ms| && ms[id].studentId != actor
    requires IsSuper(ms[id]) && !NamesSuper(out) && Closed(out)
    ensures var refused := ApplyUpdateRoles(ms, id, actor, out) == Err(LastSuperAdmin);
      var noneLeft := !HasActiveSuper(ms[id := ms[id].(roles := SerializeRoles(out))]);
      (refused <==> noneLeft) <==> (ms[id].status == Active || SuperCount(ms) != 1)
  {
    hide AllCanonical, SerializeRoles, NamesSuper, SuperCount, Closed, HasActiveSuper, ApplyUpdateRoles, IsSuper;
    var m := ms[id].(roles := SerializeRoles(out));
    RoleGuardRefusesIff(ms, id, actor, out);
    SerializedGrade(m, out);
    SupersAfter(ms, id, m);
  }

  /** The status guard is right for every member: while an active super_admin exists, a status change is
      refused exactly when none would remain. */
  lemma StatusGuardIsRight(ms: seq<Member>, id: nat, status: MemberStatus, conflict: bool)
    requires AllCanonical(ms) && id < |ms| && HasActiveSuper(ms)
    ensures ApplyUpdateProfile(ms, id, To(status), conflict) == Err(LastSuperAdmin)
       <==> !HasActiveSuper(ms[id := ms[id].(status := status)])
  {
    hide AllCanonical, SuperCount, HasActiveSuper, IsSuper, CountActiveWithRole;
    var m := ms[id].(status := status);
    QueryCountsSupers(ms);
    SupersAfter(ms, id, m);
    SameGrade(ms[id], m);
    StatusRefusedIff(ms, id, status, conflict);
  }

  lemma StatusRefusedIff(ms: seq<Member>, id: nat, status: MemberStatus, conflict: bool)
    requires id < |ms|
    ensures ApplyUpdateProfile(ms, id, To(status), conflict) == Err(LastSuperAdmin) <==>
      status != Active && ActiveSuper(ms[id]) && CountActiveWithRole(ms, "super_admin") <= 1
  {
    hide IsSuper, CountActiveWithRole;
  }

  lemma SameGrade(m: Member, n: Member)
    requires m.roles == n.roles
    ensures IsSuper(m) <==> IsSuper(n)
  {
  }

  /** For a suspended super_admin the role guard also refuses when it need not: the only active
      one is somebody else and would stay. */
  lemma SuspendedDemotionAlsoRefused(a: string, b: string, full: seq<string>, out: seq<string>)
    requires a != b && Closed(full) && NamesSuper(full) && !NamesSuper(out)
    ensures var roles := SerializeRoles(full);
      var ms := [Member(a, None, roles, Active), Member(b, None, roles, Suspended)];
      && ActiveSuper(ms[0]) && !ActiveSuper(ms[1])
      && ApplyUpdateRoles(ms, 1, a, out) == Err(LastSuperAdmin)
  {
    hide Closed, SerializeRoles, NamesSuper, TooFewLeft, IsSuper;
    var roles := SerializeRoles(full);
    var ms := [Member(a, None, roles, Active), Member(b, None, roles, Suspended)];
    SerializedGrade(ms[0], full);
    SerializedGrade(ms[1], full);
    assert Canonical(ms[0]) && Canonical(ms[1]);
    hide Canonical;
    GuardIsExact(ms, 0);
  }

  // ---- the operations in plain terms ----

  /** The active members with this token in their role column. */
  function ActiveWith(ms: seq<Member>, role: string): set<nat> {
    set i: nat | i < |ms| && ms[i].status == Active && role in Split(ms[i].roles)
  }

  lemma CountIsActiveWith(ms: seq<Member>, role: string)
    requires CommaFree(role)
    ensures CountActiveWithRole(ms, role) == |ActiveWith(ms, role)|
  {
    forall i: nat | i < |ms|
      ensures Counted(role)(ms[i]) <==> ms[i].status == Active && role in Split(ms[i].roles)
    {
      TokenPatternIsExact(ms[i].roles, role);
    }
    hide Counted, Split, CommaFree;
    CountIsSize(ms, Counted(role));
    assert ActiveWith(ms, role) == Positions(ms, Counted(role));
  }

  /** The stored text names super_admin. */
  predicate HoldsSuper(m: Member) { "super_admin" in NormalizeRoles(Text(m.roles)) }

  lemma SuperMeaning(m: Member)
    ensures IsSuper(m) <==> HoldsSuper(m)
  {
    GradeMeaning(Text(m.roles), "", false);
    hide NormalizeRoles;
  }

  /** What a role change answers and does. It is refused for an unknown member, and when it takes super_admin
      from a super_admin who is the actor or while at most one active member has the token. Otherwise the role
      column of that one member reads back as the new list, which names super_admin iff the request did. */
  ghost predicate RolesTold(
    before: seq<Member>, after: seq<Member>, error: Option<RoleError>, id: nat, actor: string, roles: seq<string>,
    out: seq<string>)
  {
    var asked := NormalizeRoles(Items(AsItems(roles)));
    var demotes := id < |before| && HoldsSuper(before[id]) && "super_admin" !in asked;
    && (error == Some(NotFound) <==> id >= |before|)
    && (error == Some(SelfDemotion) <==> demotes && before[id].studentId == actor)
    && (error == Some(LastSuperAdmin) <==>
          demotes && before[id].studentId != actor && |ActiveWith(before, "super_admin")| <= 1)
    && error in {None, Some(NotFound), Some(SelfDemotion), Some(LastSuperAdmin)}
    && if error.Some? then after == before
       else
         && id < |before| == |after|
         && after == before[id := Member(before[id].studentId, before[id].email, after[id].roles, before[id].status)]
         && Split(after[id].roles) == out && NormalizeRoles(Text(after[id].roles)) == out
         && ("super_admin" in out <==> "super_admin" in asked)
  }

  function ErrorOf(o: Outcome): Option<RoleError> { if o.Ok? then None else Some(o.error) }

  lemma RolesMeaning(ms: seq<Member>, id: nat, actor: string, roles: seq<string>, out: seq<string>)
    requires Assignable(Items(AsItems(roles)), out)
    ensures var op := UpdateRoles(id, actor, roles, out);
      RolesTold(ms, After(ms, op), ErrorOf(Apply(ms, op)), id, actor, roles, out)
  {
    hide Assignable, AsItems, Closed, SerializeRoles, NormalizeRoles, Split, ActiveWith, CountActiveWithRole;
    AssignableIsClosed(Items(AsItems(roles)), out);
    SerializedReadsBack(out);
    SuperAdminToken();
    CountIsActiveWith(ms, "super_admin");
    if id < |ms| {
      SuperMeaning(ms[id]);
    }
    hide IsSuper, HoldsSuper;
  }

  /** What an admin update answers and does with the status. */
  ghost predicate StatusTold(
    before: seq<Member>, after: seq<Member>, error: Option<RoleError>, id: nat, status: StatusField, conflict: bool)
  {
    var deactivates := id < |before| && status.To? && status.status != Active && before[id].status == Active;
    var last := deactivates && HoldsSuper(before[id]) && |ActiveWith(before, "super_admin")| <= 1;
    && (error == Some(NotFound) <==> id >= |before|)
    && (error == Some(LastSuperAdmin) <==> last)
    && (error == Some(AlreadyExists) <==> id < |before| && !last && conflict)
    && (error == Some(NotNullViolated) <==> id < |before| && !conflict && status == Null)
    && error in {None, Some(NotFound), Some(LastSuperAdmin), Some(AlreadyExists), Some(NotNullViolated)}
    && after == if error.None? && status.To?
                then before[id := Member(before[id].studentId, before[id].email, before[id].roles, status.status)]
                else before
  }

  lemma StatusTells(ms: seq<Member>, id: nat, status: StatusField, conflict: bool)
    ensures var op := UpdateProfile(id, status, conflict);
      StatusTold(ms, After(ms, op), ErrorOf(Apply(ms, op)), id, status, conflict)
  {
    hide NormalizeRoles, Split, ActiveWith, CountActiveWithRole;
    SuperAdminToken();
    CountIsActiveWith(ms, "super_admin");
    if id < |ms| {
      SuperMeaning(ms[id]);
    }
    hide IsSuper, HoldsSuper;
  }

  /** A direct creation appends one active member with the new list, unless student or e-mail is taken. */
  ghost predicate DirectTold(
    before: seq<Member>, after: seq<Member>, error: Option<RoleError>, studentId: string, email: string,
    roles: seq<string>, out: seq<string>)
  {
    && error in {None, Some(AlreadyExists)}
    && (error.None? <==> forall i :: 0 <= i < |before| ==>
          before[i].studentId != studentId && before[i].email != Some(email))
    && if error.Some? then after == before
       else
         && |after| == |before| + 1
         && after == before + [Member(studentId, Some(email), after[|before|].roles, Active)]
         && Split(after[|before|].roles) == out && NormalizeRoles(Text(after[|before|].roles)) == out
         && ("super_admin" in out <==> "super_admin" in NormalizeRoles(Items(AsItems(roles))))
  }

  lemma DirectTells(ms: seq<Member>, studentId: string, email: string, roles: seq<string>, out: seq<string>)
    requires Assignable(Items(AsItems(roles)), out)
    ensures var op := CreateDirect(studentId, email, roles, out);
      DirectTold(ms, After(ms, op), ErrorOf(Apply(ms, op)), studentId, email, roles, out)
  {
    hide Assignable, AsItems, Closed, SerializeRoles, NormalizeRoles, Split, MemberAt;
    AssignableIsClosed(Items(AsItems(roles)), out);
    SerializedReadsBack(out);
    assert MemberAt(ms, studentId) < |ms| ==> ms[MemberAt(ms, studentId)].studentId == studentId;
  }

  /** An approval activates the student's inactive row with the request's e-mail and its roles unchanged, or
      appends a plain member; an active member or a conflict refuses it. */
  ghost predicate AdmissionTold(
    before: seq<Member>, after: seq<Member>, error: Option<RoleError>, studentId: string, email: string, conflict: bool)
  {
    && error in {None, Some(AlreadyActive), Some(AlreadyExists)}
    && if error.Some? then after == before
       else if forall i :: 0 <= i < |before| ==> before[i].studentId != studentId
       then after == before + [Member(studentId, Some(email), "member", Active)]
       else exists p :: 0 <= p < |before| && before[p].studentId == studentId && before[p].status != Active
                        && after == before[p := Member(studentId, Some(email), before[p].roles, Active)]
  }

  lemma AdmissionTells(ms: seq<Member>, studentId: string, email: string, conflict: bool)
    ensures var op := ApproveSignup(studentId, email, conflict);
      && AdmissionTold(ms, After(ms, op), ErrorOf(Apply(ms, op)), studentId, email, conflict)
      && (ErrorOf(Apply(ms, op)) == Some(AlreadyExists) ==> conflict)
      && (conflict ==> ErrorOf(Apply(ms, op)).Some?)
  {
    hide MemberAt;
    var p := MemberAt(ms, studentId);
    var after := After(ms, ApproveSignup(studentId, email, conflict));
    if p < |ms| {
      assert ms[p].studentId == studentId;
    }
  }

  // ---- the table ----

  class MemberTable {
    var members: seq<Member>

    constructor ()
      ensures members == []
    {
      members := [];
    }

    method CountActiveMembersWithRole(role: string) returns (n: nat)
      ensures n == CountActiveWithRole(members, role)
      ensures CommaFree(role) ==> n == |ActiveWith(members, role)|
    {
      if CommaFree(role) {
        CountIsActiveWith(members, role);
      }
      hide ActiveWith;
      n := 0;
      for i := 0 to |members|
        invariant n == Count(members[..i], Counted(role))
      {
        assert members[..i + 1][..i] == members[..i];
        if Like(Bounded(members[i].roles), TokenPattern(role)) && members[i].status == Active {
          n := n + 1;
        }
      }
      assert members[..|members|] == members;
    }

    method UpdateMemberRoles(id: nat, actor: string, roles: seq<string>)
      returns (error: Option<RoleError>, ghost op: Op)
      modifies this
      ensures op.UpdateRoles? && op.id == id && op.actor == actor && op.roles == roles && Possible(op)
      ensures members == After(old(members), op)
      ensures Apply(old(members), op) == if error.Some? then Err(error.value) else Ok(members)
      ensures old(HasActiveSuper(members)) ==> HasActiveSuper(members)
      ensures RolesTold(old(members), members, error, id, actor, roles, op.out)
      ensures AssignableTold(Items(AsItems(roles)), op.out)
    {
      var normalized := NormalizeAssignableRoles(Items(AsItems(roles)));
      op := UpdateRoles(id, actor, roles, normalized);
      hide NormalizeRoles, SerializeRoles, Assignable, HasActiveSuper, NamesSuper, RolesTold, AssignableTold;
      RolesMeaning(members, id, actor, roles, normalized);
      if HasActiveSuper(members) { OpKeepsSuperAdmin(members, op); }
      if id >= |members| {
        return Some(NotFound), op;
      }
      var m := members[id];
      var previous := ParseRoles(Text(m.roles));
      if m.studentId == actor && previous.grade == SuperAdminGrade && !NamesSuper(normalized) {
        return Some(SelfDemotion), op;
      }
      if previous.grade == SuperAdminGrade && !NamesSuper(normalized) {
        var n := CountActiveMembersWithRole("super_admin");
        if n <= 1 {
          return Some(LastSuperAdmin), op;
        }
      }
      members := members[id := m.(roles := SerializeRoles(normalized))];
      error := None;
    }

    method EnsureNotDeactivatingLastSuperAdmin(m: Member, next: StatusField) returns (refused: bool)
      ensures refused <==> next.To? && next.status != Active && ActiveSuper(m) && TooFewLeft(members)
      ensures refused <==> next.To? && next.status != Active && m.status == Active && HoldsSuper(m)
                           && |ActiveWith(members, "super_admin")| <= 1
    {
      SuperMeaning(m);
      SuperAdminToken();
      CountIsActiveWith(members, "super_admin");
      hide HoldsSuper, ActiveWith;
      if !next.To? || next.status == Active {
        return false;
      }
      if m.status != Active {
        return false;
      }
      if ParseRoles(Text(m.roles)).grade != SuperAdminGrade {
        return false;
      }
      var n := CountActiveMembersWithRole("super_admin");
      refused := n <= 1;
    }

    method UpdateMemberProfileAdmin(id: nat, status: StatusField, conflict: bool) returns (error: Option<RoleError>)
      modifies this
      ensures members == After(old(members), UpdateProfile(id, status, conflict))
      ensures Apply(old(members), UpdateProfile(id, status, conflict))
           == if error.Some? then Err(error.value) else Ok(members)
      ensures old(HasActiveSuper(members)) ==> HasActiveSuper(members)
      ensures StatusTold(old(members), members, error, id, status, conflict)
    {
      hide HasActiveSuper, ParseRoles, TooFewLeft, StatusTold;
      StatusTells(members, id, status, conflict);
      if HasActiveSuper(members) { OpKeepsSuperAdmin(members, UpdateProfile(id, status, conflict)); }
      if id >= |members| {
        return Some(NotFound);
      }
      var refused := EnsureNotDeactivatingLastSuperAdmin(members[id], status);
      if refused {
        return Some(LastSuperAdmin);
      }
      if conflict {
        return Some(AlreadyExists);
      }
      match status {
        case Unset =>
        case Null => return Some(NotNullViolated);
        case To(s) => members := members[id := members[id].(status := s)];
      }
      error := None;
    }

    method CreateMemberDirect(studentId: string, email: string, roles: seq<string>)
      returns (error: Option<RoleError>, ghost op: Op)
      modifies this
      ensures op.CreateDirect? && op.studentId == studentId && op.email == email && op.roles == roles && Possible(op)
      ensures members == After(old(members), op)
      ensures Apply(old(members), op) == if error.Some? then Err(error.value) else Ok(members)
      ensures old(HasActiveSuper(members)) ==> HasActiveSuper(members)
      ensures DirectTold(old(members), members, error, studentId, email, roles, op.out)
      ensures AssignableTold(Items(AsItems(roles)), op.out)
    {
      var normalized := NormalizeAssignableRoles(Items(AsItems(roles)));
      op := CreateDirect(studentId, email, roles, normalized);
      hide NormalizeRoles, SerializeRoles, Assignable, HasActiveSuper, EmailTaken, MemberAt, DirectTold;
      hide AssignableTold;
      DirectTells(members, studentId, email, roles, normalized);
      if HasActiveSuper(members) { OpKeepsSuperAdmin(members, op); }
      if MemberAt(members, studentId) < |members| {
        return Some(AlreadyExists), op;
      }
      if EmailTaken(members, email, |members|) {
        return Some(AlreadyExists), op;
      }
      members := members + [Member(studentId, Some(email), SerializeRoles(normalized), Active)];
      error := None;
    }

    /** The member half of approve_signup_request. */
    method AdmitMember(studentId: string, email: string, conflict: bool) returns (error: Option<RoleError>)
      modifies this
      ensures members == After(old(members), ApproveSignup(studentId, email, conflict))
      ensures Apply(old(members), ApproveSignup(studentId, email, conflict))
           == if error.Some? then Err(error.value) else Ok(members)
      ensures old(HasActiveSuper(members)) ==> HasActiveSuper(members)
      ensures AdmissionTold(old(members), members, error, studentId, email, conflict)
    {
      hide HasActiveSuper, IsSuper, MemberAt, SerializeRoles, TooFewLeft, AdmissionTold;
      AdmissionTells(members, studentId, email, conflict);
      if HasActiveSuper(members) { OpKeepsSuperAdmin(members, ApproveSignup(studentId, email, conflict)); }
      var p := MemberAt(members, studentId);
      if p < |members| && members[p].status == Active {
        return Some(AlreadyActive);
      }
      if conflict {
        return Some(AlreadyExists);
      }
      if p == |members| {
        members := members + [Member(studentId, Some(email), "member", Active)];
      } else {
        members := members[p := members[p].(email := Some(email), status := Active)];
      }
      error := None;
    }
  }
}
