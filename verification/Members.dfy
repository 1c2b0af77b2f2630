/** The members table as roles, signup and activation see it. */
module Members {
  import opened Prelude

  type StudentId = string

  /** The member statuses pending, active, suspended and rejected. */
  datatype MemberStatus = Waiting | Active | Suspended | Refused

  /** A row; its id is its position in the table. */
  datatype Member = Member(studentId: StudentId, email: Option<string>, roles: string, status: MemberStatus)

  /** The row of the member with this student id, or |members|. */
  function MemberAt(members: seq<Member>, sid: StudentId): (p: nat)
    ensures p <= |members|
    ensures p < |members| ==> members[p].studentId == sid
    ensures p == |members| ==> forall i :: 0 <= i < |members| ==> members[i].studentId != sid
  {
    if |members| == 0 then 0
    else
      var p := MemberAt(members[..|members| - 1], sid);
      if p < |members| - 1 then p
      else if members[|members| - 1].studentId == sid then |members| - 1 else |members|
  }

  predicate EmailTaken(members: seq<Member>, email: string, except: nat) {
    exists i :: 0 <= i < |members| && i != except && members[i].email == Some(email)
  }

  /** The member half of an approval: a missing member is created as a plain member; an inactive one
      gets the request's e-mail, keeps its roles and becomes active again. */
  function Admit(members: seq<Member>, sid: StudentId, email: string): seq<Member> {
    var p := MemberAt(members, sid);
    if p < |members| then members[p := members[p].(email := Some(email), status := Active)]
    else members + [Member(sid, Some(email), "member", Active)]
  }
}
