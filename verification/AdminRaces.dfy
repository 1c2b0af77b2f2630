/** Administrative changes that read the member row first and lock, count and write later, with other
    commits in between. The last active super_admin can then be lost, and this says exactly when. */
module AdminRaces {
  import opened Prelude
  import opened CommaText
  import opened Members
  import opened Roles
  import opened SuperAdmins

  /** A committed change. readAt is the moment its member row was read: the number of earlier commits.
      Creations and approvals take nothing away and are one step each. */
  datatype Commit =
    | SetRoles(id: nat, actor: string, out: seq<string>, readAt: nat)
    | SetStatus(id: nat, status: MemberStatus, readAt: nat)
    | Adds(op: Op)

  /** The guard judges the row as it was read and counts the table as it is; a value equal to the one
      that was read is not written. */
  function CommitRoles(ms: seq<Member>, seen: Member, id: nat, actor: string, out: seq<string>): seq<Member> {
    var text := SerializeRoles(out);
    if IsSuper(seen) && !NamesSuper(out) && (seen.studentId == actor || TooFewLeft(ms)) then ms
    else if id >= |ms| || text == seen.roles then ms
    else ms[id := ms[id].(roles := text)]
  }

  function CommitStatus(ms: seq<Member>, seen: Member, id: nat, status: MemberStatus): seq<Member> {
    if status != Active && ActiveSuper(seen) && TooFewLeft(ms) then ms
    else if id >= |ms| || status == seen.status then ms
    else ms[id := ms[id].(status := status)]
  }

  ghost predicate Sound(c: Commit) {
    match c
    case SetRoles(_, _, out, _) => Closed(out)
    case SetStatus(_, _, _) => true
    case Adds(op) => (op.CreateDirect? || op.ApproveSignup?) && Possible(op)
  }

  ghost predicate Race(states: seq<seq<Member>>, commits: seq<Commit>) {
    && |states| == |commits| + 1
    && forall i :: 0 <= i < |commits| ==> Sound(commits[i]) && Committed(states, commits[i], i)
  }

  /** The i-th commit, with the row it read. */
  ghost predicate Committed(states: seq<seq<Member>>, c: Commit, i: nat)
    requires i + 1 < |states|
  {
    match c
    case SetRoles(id, actor, out, readAt) =>
      && readAt <= i && id < |states[readAt]|
      && states[i + 1] == CommitRoles(states[i], states[readAt][id], id, actor, out)
    case SetStatus(id, status, readAt) =>
      && readAt <= i && id < |states[readAt]|
      && states[i + 1] == CommitStatus(states[i], states[readAt][id], id, status)
    case Adds(op) => states[i + 1] == After(states[i], op)
  }

  // ---- one commit ----

  /** Row id is the only active super_admin. */
  ghost predicate OnlySuper(ms: seq<Member>, id: nat) {
    && id < |ms| && ActiveSuper(ms[id])
    && forall j :: 0 <= j < |ms| && j != id ==> !ActiveSuper(ms[j])
  }

  lemma LostIffOnly(ms: seq<Member>, id: nat, m: Member)
    requires HasActiveSuper(ms) && id < |ms|
    ensures !HasActiveSuper(ms[id := m]) <==> OnlySuper(ms, id) && !ActiveSuper(m)
  {
    hide ActiveSuper;
    var after := ms[id := m];
    if OnlySuper(ms, id) && !ActiveSuper(m) {
      assert forall j :: 0 <= j < |after| ==> !ActiveSuper(after[j]);
    } else if ActiveSuper(m) {
      assert ActiveSuper(after[id]);
    } else if !OnlySuper(ms, id) {
      var i :| 0 <= i < |ms| && ActiveSuper(ms[i]);
      if i == id {
        var j :| 0 <= j < |ms| && j != id && ActiveSuper(ms[j]);
        assert ActiveSuper(after[j]);
      } else {
        assert ActiveSuper(after[i]);
      }
    }
  }

  /** Exactly when a role change loses the last active super_admin: it takes the grade from the only one,
      whom it had read before that member had the grade, so that no guard looked. */
  lemma RolesLoseIff(ms: seq<Member>, seen: Member, id: nat, actor: string, out: seq<string>)
    requires HasActiveSuper(ms) && id < |ms| && Closed(out)
    ensures !HasActiveSuper(CommitRoles(ms, seen, id, actor, out)) <==>
      OnlySuper(ms, id) && !IsSuper(seen) && !NamesSuper(out) && SerializeRoles(out) != seen.roles
  {
    hide HasActiveSuper, SerializeRoles, NamesSuper, TooFewLeft, Closed, OnlySuper, IsSuper;
    var text := SerializeRoles(out);
    var m := ms[id].(roles := text);
    WrittenRoles(ms, id, out, text);
    if IsSuper(seen) && !NamesSuper(out) && !TooFewLeft(ms) {
      NotTheOnly(ms, id);
    }
  }

  /** What is left when the new roles of row id are written. */
  lemma WrittenRoles(ms: seq<Member>, id: nat, out: seq<string>, text: string)
    requires HasActiveSuper(ms) && id < |ms| && Closed(out) && text == SerializeRoles(out)
    ensures !HasActiveSuper(ms[id := ms[id].(roles := text)]) <==> OnlySuper(ms, id) && !NamesSuper(out)
  {
    hide HasActiveSuper, SerializeRoles, NamesSuper, Closed, OnlySuper, IsSuper;
    var m := ms[id].(roles := text);
    SerializedGrade(m, out);
    LostIffOnly(ms, id, m);
    OnlyIsActive(ms, id);
  }

  lemma OnlyIsActive(ms: seq<Member>, id: nat)
    ensures OnlySuper(ms, id) ==> id < |ms| && ms[id].status == Active
  {
  }

  lemma NotTheOnly(ms: seq<Member>, id: nat)
    requires id < |ms| && !TooFewLeft(ms)
    ensures !OnlySuper(ms, id)
  {
    SomeoneElse(ms, id);
  }

  /** The same for a status change. */
  lemma StatusLosesIff(ms: seq<Member>, seen: Member, id: nat, status: MemberStatus)
    requires HasActiveSuper(ms) && id < |ms|
    ensures !HasActiveSuper(CommitStatus(ms, seen, id, status)) <==>
      OnlySuper(ms, id) && !ActiveSuper(seen) && status != Active && status != seen.status
  {
    hide HasActiveSuper, TooFewLeft, OnlySuper, IsSuper;
    WrittenStatus(ms, id, status);
    if !TooFewLeft(ms) {
      NotTheOnly(ms, id);
    }
  }

  /** What is left when the new status of row id is written. */
  lemma WrittenStatus(ms: seq<Member>, id: nat, status: MemberStatus)
    requires HasActiveSuper(ms) && id < |ms|
    ensures !HasActiveSuper(ms[id := ms[id].(status := status)]) <==> OnlySuper(ms, id) && status != Active
  {
    hide HasActiveSuper, OnlySuper, IsSuper;
    var m := ms[id].(status := status);
    LostIffOnly(ms, id, m);
    OnlyIsActive(ms, id);
    OnlyIsSuper(ms, id);
    SameGrade(ms[id], m);
  }

  lemma OnlyIsSuper(ms: seq<Member>, id: nat)
    ensures OnlySuper(ms, id) ==> id < |ms| && IsSuper(ms[id])
  {
  }

  /** What a commit writes. A role change is dropped when the row it read held super_admin, the new list does
      not, and the actor is the member or at most one active member has the token now; it also writes nothing
      when the text is the one it read. Otherwise the row's roles read back as the new list. */
  lemma RolesCommitMeaning(ms: seq<Member>, seen: Member, id: nat, actor: string, out: seq<string>)
    requires id < |ms| && Closed(out)
    ensures var after := CommitRoles(ms, seen, id, actor, out);
      var dropped := HoldsSuper(seen) && "super_admin" !in out
        && (seen.studentId == actor || |ActiveWith(ms, "super_admin")| <= 1);
      if dropped || (Split(seen.roles) == out && seen.roles == Join(out)) then after == ms
      else
        && |after| == |ms|
        && after == ms[id := Member(ms[id].studentId, ms[id].email, after[id].roles, ms[id].status)]
        && Split(after[id].roles) == out && NormalizeRoles(Text(after[id].roles)) == out
  {
    hide Closed, NormalizeRoles, Split, Join, ActiveWith, CountActiveWithRole;
    SerializedReadsBack(out);
    SerializedIsJoin(out);
    SuperMeaning(seen);
    SuperAdminToken();
    CountIsActiveWith(ms, "super_admin");
    hide SerializeRoles, IsSuper, HoldsSuper;
  }

  lemma SerializedIsJoin(out: seq<string>)
    requires Closed(out)
    ensures SerializeRoles(out) == Join(out)
  {
    DedupeMeaning(out);
  }

  /** A status change is dropped when it deactivates a member who was read as an active super_admin while at
      most one active member has the token now, or when the status is the one it read. */
  lemma StatusCommitMeaning(ms: seq<Member>, seen: Member, id: nat, status: MemberStatus)
    requires id < |ms|
    ensures var after := CommitStatus(ms, seen, id, status);
      var dropped := status != Active && seen.status == Active && HoldsSuper(seen)
        && |ActiveWith(ms, "super_admin")| <= 1;
      after == if dropped || status == seen.status then ms
               else ms[id := Member(ms[id].studentId, ms[id].email, ms[id].roles, status)]
  {
    hide NormalizeRoles, ActiveWith, CountActiveWithRole;
    SuperMeaning(seen);
    SuperAdminToken();
    CountIsActiveWith(ms, "super_admin");
    hide IsSuper, HoldsSuper;
  }

  // ---- runs ----

  /** The target was an active super_admin at the commit, and the read row did not show what the guard
      looks for: its grade or status rose in between. */
  ghost predicate RoseUnseen(states: seq<seq<Member>>, c: Commit, i: nat)
    requires i < |states|
  {
    match c
    case SetRoles(id, _, _, readAt) =>
      readAt <= i && id < |states[readAt]| && OnlySuper(states[i], id) && !IsSuper(states[readAt][id])
    case SetStatus(id, _, readAt) =>
      readAt <= i && id < |states[readAt]| && OnlySuper(states[i], id) && !ActiveSuper(states[readAt][id])
    case Adds(_) => false
  }

  lemma CommitKeeps(states: seq<seq<Member>>, c: Commit, i: nat)
    requires i + 1 < |states| && Sound(c) && Committed(states, c, i)
    requires HasActiveSuper(states[i]) && !RoseUnseen(states, c, i)
    ensures HasActiveSuper(states[i + 1])
  {
    hide HasActiveSuper, OnlySuper, IsSuper, SerializeRoles, Possible;
    match c
    case SetRoles(id, actor, out, readAt) =>
      hide Closed, NamesSuper, TooFewLeft;
      if id < |states[i]| { RolesLoseIff(states[i], states[readAt][id], id, actor, out); }
    case SetStatus(id, status, readAt) =>
      if id < |states[i]| { StatusLosesIff(states[i], states[readAt][id], id, status); }
    case Adds(op) => ActivationKeeps(states[i], op);
  }

  /** Whatever commits in between: an active super_admin survives every run in which no commit takes the
      last one whose grade or status rose after the commit's read. */
  lemma {:induction false} SurvivesUnlessRoseUnseen(states: seq<seq<Member>>, commits: seq<Commit>, i: nat)
    requires Race(states, commits) && i < |states| && HasActiveSuper(states[0])
    requires forall k :: 0 <= k < i ==> !RoseUnseen(states, commits[k], k)
    ensures HasActiveSuper(states[i])
  {
    hide HasActiveSuper, RoseUnseen, Committed, Sound;
    if i > 0 {
      SurvivesUnlessRoseUnseen(states, commits, i - 1);
      CommitKeeps(states, commits[i - 1], i - 1);
    }
  }

  /** A change whose row was read after the commit before it never rose unseen. */
  lemma FreshReadSees(states: seq<seq<Member>>, c: Commit, i: nat)
    requires i < |states| && (c.SetRoles? || c.SetStatus? ==> c.readAt == i)
    ensures !RoseUnseen(states, c, i)
  {
    hide IsSuper;
  }

  // ---- it does happen ----

  lemma MemberAndAdmin()
    ensures Closed(["member"]) && SerializeRoles(["member"]) == "member" && !NamesSuper(["member"])
    ensures Closed(["member", "admin"]) && SerializeRoles(["member", "admin"]) == "member,admin"
    ensures !NamesSuper(["member", "admin"])
  {
    PlainMemberIsCanonical();
    assert SetOf(["member", "admin"]) == {"member", "admin"};
    assert ["member", "admin"][..1] == ["member"] && ["member"][..0] == [];
    assert "member"[0] != "admin"[0] && "super_admin"[0] != "member"[0] && "super_admin"[0] != "admin"[0];
  }

  function Row(studentId: string, roles: string): Member { Member(studentId, None, roles, Active) }

  lemma RowIsCanonical(studentId: string, full: seq<string>)
    requires Closed(full)
    ensures Canonical(Row(studentId, SerializeRoles(full)))
  {
    hide Closed, SerializeRoles;
  }

  /** Grades by role column: full is a super_admin's, the other two are not. */
  lemma Grades(studentId: string, full: seq<string>)
    requires Closed(full) && NamesSuper(full)
    ensures ActiveSuper(Row(studentId, SerializeRoles(full)))
    ensures !IsSuper(Row(studentId, "member,admin")) && !IsSuper(Row(studentId, "member"))
    ensures Canonical(Row(studentId, SerializeRoles(full)))
    ensures SerializeRoles(full) != "member,admin" && SerializeRoles(full) != "member"
  {
    hide Closed, SerializeRoles, NamesSuper, IsSuper, Canonical;
    RowIsCanonical(studentId, full);
    MemberAndAdmin();
    SerializedGrade(Row(studentId, SerializeRoles(full)), full);
    SerializedGrade(Row(studentId, "member,admin"), ["member", "admin"]);
    SerializedGrade(Row(studentId, "member"), ["member"]);
  }

  lemma TwoSupersAreEnough(a: string, b: string, roles: string)
    requires ActiveSuper(Row(a, roles)) && ActiveSuper(Row(b, roles))
    requires Canonical(Row(a, roles)) && Canonical(Row(b, roles))
    ensures !TooFewLeft([Row(a, roles), Row(b, roles)])
  {
    hide ActiveSuper, Canonical, TooFewLeft;
    var ms := [Row(a, roles), Row(b, roles)];
    GuardIsExact(ms, 0);
    assert ActiveSuper(ms[1]);
  }

  lemma Promotion(a: string, b: string, full: seq<string>, top: string)
    requires Closed(full) && NamesSuper(full) && top == SerializeRoles(full)
    ensures CommitRoles([Row(a, top), Row(b, "member,admin")], Row(b, "member,admin"), 1, a, full)
         == [Row(a, top), Row(b, top)]
  {
    hide Closed, SerializeRoles, NamesSuper, IsSuper, TooFewLeft, Canonical;
    Grades(b, full);
  }

  lemma Demotion(a: string, b: string, top: string)
    requires a != b && top != "member" && !TooFewLeft([Row(a, top), Row(b, top)])
    ensures CommitRoles([Row(a, top), Row(b, top)], Row(a, top), 0, b, ["member"]) == [Row(a, "member"), Row(b, top)]
  {
    hide Closed, SerializeRoles, NamesSuper, IsSuper, TooFewLeft;
    MemberAndAdmin();
  }

  lemma StaleDemotion(a: string, b: string, top: string)
    requires !IsSuper(Row(b, "member,admin"))
    ensures CommitRoles([Row(a, "member"), Row(b, top)], Row(b, "member,admin"), 1, a, ["member"])
         == [Row(a, "member"), Row(b, "member")]
  {
    hide Closed, SerializeRoles, NamesSuper, IsSuper, TooFewLeft;
    MemberAndAdmin();
    assert "member" != "member,admin";
  }

  /** A demotion of b is read while b is a plain admin. Then b is promoted and a is demoted, both rightly,
      and the demotion commits without a look at the count: nobody is left. */
  lemma StaleDemotionLosesTheLast(a: string, b: string, full: seq<string>)
    returns (states: seq<seq<Member>>, commits: seq<Commit>)
    requires a != b && Closed(full) && NamesSuper(full)
    ensures |commits| == 3 && Race(states, commits)
    ensures HasActiveSuper(states[0]) && !HasActiveSuper(states[3]) && RoseUnseen(states, commits[2], 2)
  {
    hide Closed, SerializeRoles, NamesSuper, IsSuper, TooFewLeft, Canonical, CommitRoles;
    var top := SerializeRoles(full);
    states := [
      [Row(a, top), Row(b, "member,admin")],
      [Row(a, top), Row(b, top)],
      [Row(a, "member"), Row(b, top)],
      [Row(a, "member"), Row(b, "member")]];
    commits := [SetRoles(1, a, full, 0), SetRoles(0, b, ["member"], 1), SetRoles(1, a, ["member"], 0)];
    MemberAndAdmin();
    Grades(a, full);
    Grades(b, full);
    TwoSupersAreEnough(a, b, top);
    Promotion(a, b, full, top);
    Demotion(a, b, top);
    StaleDemotion(a, b, top);
    assert ActiveSuper(states[0][0]);
    assert forall i :: 0 <= i < 3 ==> Sound(commits[i]) && Committed(states, commits[i], i);
    assert OnlySuper(states[2], 1);
  }
}
