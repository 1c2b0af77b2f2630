/** The signup life cycle: a request is made, decided, and used once to set a password.

    Activation commits twice, first the credentials and then the request status. A worker may stop
    between the two, and other operations may run there. Every other operation is one transaction. */
module SignupLifecycle {
  import opened Prelude
  import opened Members

  datatype RequestStatus = Pending | Approved | Rejected | Activated

  /** A request; its id is its position in the table. */
  datatype Request = Request(studentId: StudentId, email: string, status: RequestStatus)

  /** An entry of the activation issue log. */
  datatype Issue = Issue(request: nat, reissue: bool)

  /** A row of member_auth; member is a position in the members table. */
  datatype Credential = Credential(member: nat, studentId: StudentId, hash: string)

  datatype Db = Db(requests: seq<Request>, members: seq<Member>, auth: seq<Credential>, issues: seq<Issue>)

  datatype Error =
    | MemberAlreadyActive | SignupAlreadyPending | RequestNotFound | RequestNotPending | RequestNotApproved
    | EmailInUse | MemberExists | MemberNotFound
    | InvalidActivationToken | ActivationAlreadyUsed | ActivationMemberMissing | MemberNotActive
    | Unauthorized | LoginFailed

  // ---- lookups ----

  /** The row of the credentials of this student id, or |auth|. */
  function CredentialAt(auth: seq<Credential>, sid: StudentId): (p: nat)
    ensures p <= |auth|
    ensures p < |auth| ==> auth[p].studentId == sid
    ensures p == |auth| ==> forall i :: 0 <= i < |auth| ==> auth[i].studentId != sid
  {
    if |auth| == 0 then 0
    else
      var p := CredentialAt(auth[..|auth| - 1], sid);
      if p < |auth| - 1 then p
      else if auth[|auth| - 1].studentId == sid then |auth| - 1 else |auth|
  }

  predicate HasCredentials(auth: seq<Credential>, sid: StudentId) { CredentialAt(auth, sid) < |auth| }

  function PasswordOf(auth: seq<Credential>, sid: StudentId): Option<string> {
    if HasCredentials(auth, sid) then Some(auth[CredentialAt(auth, sid)].hash) else None
  }

  predicate HasPending(requests: seq<Request>, sid: StudentId) {
    exists i :: 0 <= i < |requests| && requests[i].studentId == sid && requests[i].status == Pending
  }

  // ---- operations: what is refused, and what an accepted operation does ----

  function CheckCreate(db: Db, sid: StudentId): Option<Error> {
    var p := MemberAt(db.members, sid);
    if p < |db.members| && db.members[p].status == Active then Some(MemberAlreadyActive)
    else if HasPending(db.requests, sid) then Some(SignupAlreadyPending)
    else None
  }

  function DoCreate(db: Db, sid: StudentId, email: string): Db {
    db.(requests := db.requests + [Request(sid, email, Pending)])
  }

  function CheckPending(db: Db, id: nat): Option<Error> {
    if id >= |db.requests| then Some(RequestNotFound)
    else if db.requests[id].status != Pending then Some(RequestNotPending)
    else None
  }

  function CheckApprove(db: Db, id: nat): Option<Error> {
    var refused := CheckPending(db, id);
    if refused.Some? then refused
    else
      var p := MemberAt(db.members, db.requests[id].studentId);
      if p < |db.members| && db.members[p].status == Active then Some(MemberAlreadyActive)
      else if EmailTaken(db.members, db.requests[id].email, p) then Some(EmailInUse)
      else None
  }

  function SetRequestStatus(requests: seq<Request>, id: nat, status: RequestStatus): seq<Request>
    requires id < |requests|
  {
    requests[id := requests[id].(status := status)]
  }

  function DoApprove(db: Db, id: nat): Db
    requires id < |db.requests|
  {
    db.(members := Admit(db.members, db.requests[id].studentId, db.requests[id].email),
        requests := SetRequestStatus(db.requests, id, Approved),
        issues := db.issues + [Issue(id, false)])
  }

  function DoReject(db: Db, id: nat): Db
    requires id < |db.requests|
  {
    db.(requests := SetRequestStatus(db.requests, id, Rejected))
  }

  function CheckReissue(db: Db, id: nat): Option<Error> {
    if id >= |db.requests| then Some(RequestNotFound)
    else if db.requests[id].status != Approved then Some(RequestNotApproved)
    else None
  }

  function DoReissue(db: Db, id: nat): Db { db.(issues := db.issues + [Issue(id, true)]) }

  function CheckDirect(db: Db, sid: StudentId, email: string): Option<Error> {
    if MemberAt(db.members, sid) < |db.members| then Some(MemberExists)
    else if EmailTaken(db.members, email, |db.members|) then Some(EmailInUse)
    else None
  }

  /** roles is what serialize_roles made of the requested ones. */
  function DoDirect(db: Db, sid: StudentId, email: string, roles: string): Db {
    db.(members := db.members + [Member(sid, Some(email), roles, Active)],
        requests := db.requests + [Request(sid, email, Approved)])
  }

  /** An administrator's change of status and e-mail; emails are unique when they are given. */
  function CheckEdit(db: Db, sid: StudentId, email: Option<string>): Option<Error> {
    var p := MemberAt(db.members, sid);
    if p == |db.members| then Some(MemberNotFound)
    else if email.Some? && EmailTaken(db.members, email.value, p) then Some(EmailInUse)
    else None
  }

  function DoEdit(db: Db, sid: StudentId, status: MemberStatus, email: Option<string>): Db
    requires MemberAt(db.members, sid) < |db.members|
  {
    var p := MemberAt(db.members, sid);
    db.(members := db.members[p := db.members[p].(email := email, status := status)])
  }

  /** The checks of an activation, in order: the request, then the member. */
  function CheckActivation(db: Db, id: nat, sid: StudentId): Option<Error> {
    if id >= |db.requests| || db.requests[id].studentId != sid then Some(InvalidActivationToken)
    else if db.requests[id].status == Activated then Some(ActivationAlreadyUsed)
    else if db.requests[id].status != Approved then Some(InvalidActivationToken)
    else
      var p := MemberAt(db.members, sid);
      if p == |db.members| then Some(ActivationMemberMissing)
      else if db.members[p].status != Active then Some(MemberNotActive)
      else None
  }

  /** The row of the student gets the new hash; without one, a row is added. */
  function WithPassword(auth: seq<Credential>, member: nat, sid: StudentId, hash: string): seq<Credential> {
    var p := CredentialAt(auth, sid);
    if p < |auth| then auth[p := auth[p].(hash := hash)] else auth + [Credential(member, sid, hash)]
  }

  /** The first commit of an activation. */
  function StoreCredentials(db: Db, sid: StudentId, hash: string): Db {
    db.(auth := WithPassword(db.auth, MemberAt(db.members, sid), sid, hash))
  }

  /** change_member_password; verified says whether the current password was right. */
  function CheckChange(db: Db, sid: StudentId, verified: bool): Option<Error> {
    if !HasCredentials(db.auth, sid) then Some(Unauthorized) else if !verified then Some(LoginFailed) else None
  }

  /** The second commit, which does not look at the status again. */
  function MarkActivated(db: Db, id: nat): Db
    requires id < |db.requests|
  {
    db.(requests := SetRequestStatus(db.requests, id, Activated))
  }

  // ---- runs ----

  /** The database, and the requests whose activation is between its two commits. */
  datatype State = State(db: Db, started: multiset<nat>)

  datatype Action =
    | Create(sid: StudentId, email: string)
    | Approve(id: nat)
    | Reject(id: nat)
    | Reissue(id: nat)
    | Direct(sid: StudentId, email: string, roles: string)
    | Edit(sid: StudentId, status: MemberStatus, newEmail: Option<string>)
    | ChangePassword(sid: StudentId, verified: bool, hash: string)
    | Begin(id: nat, sid: StudentId, hash: string)
    | Finish(id: nat)
    | Crash(id: nat)

  /** Why the action is refused, if it is. Finish and Crash belong to a started activation. */
  function Check(db: Db, a: Action): Option<Error> {
    match a
    case Create(sid, _) => CheckCreate(db, sid)
    case Approve(id) => CheckApprove(db, id)
    case Reject(id) => CheckPending(db, id)
    case Reissue(id) => CheckReissue(db, id)
    case Direct(sid, email, _) => CheckDirect(db, sid, email)
    case Edit(sid, _, email) => CheckEdit(db, sid, email)
    case ChangePassword(sid, verified, _) => CheckChange(db, sid, verified)
    case Begin(id, sid, _) => CheckActivation(db, id, sid)
    case Finish(_) => None
    case Crash(_) => None
  }

  predicate Enabled(s: State, a: Action) {
    match a
    case Finish(id) => id in s.started && id < |s.db.requests|
    case Crash(id) => id in s.started
    case _ => Check(s.db, a) == None
  }

  function Do(s: State, a: Action): State
    requires Enabled(s, a)
  {
    match a
    case Create(sid, email) => s.(db := DoCreate(s.db, sid, email))
    case Approve(id) => s.(db := DoApprove(s.db, id))
    case Reject(id) => s.(db := DoReject(s.db, id))
    case Reissue(id) => s.(db := DoReissue(s.db, id))
    case Direct(sid, email, roles) => s.(db := DoDirect(s.db, sid, email, roles))
    case Edit(sid, status, email) => s.(db := DoEdit(s.db, sid, status, email))
    case ChangePassword(sid, _, hash) => s.(db := StoreCredentials(s.db, sid, hash))
    case Begin(id, sid, hash) => State(StoreCredentials(s.db, sid, hash), s.started + multiset{id})
    case Finish(id) => State(MarkActivated(s.db, id), s.started - multiset{id})
    case Crash(id) => s.(started := s.started - multiset{id})
  }

  /** A refused action changes nothing. */
  function Step(s: State, a: Action): State { if Enabled(s, a) then Do(s, a) else s }

  function Run(s: State, actions: seq<Action>): State {
    if |actions| == 0 then s else Step(Run(s, actions[..|actions| - 1]), actions[|actions| - 1])
  }

  // ---- the invariant ----

  predicate Admitted(status: RequestStatus) { status == Approved || status == Activated }

  predicate HasMember(members: seq<Member>, sid: StudentId) {
    exists i :: 0 <= i < |members| && members[i].studentId == sid
  }

  predicate HasAdmission(requests: seq<Request>, sid: StudentId) {
    exists i :: 0 <= i < |requests| && requests[i].studentId == sid && Admitted(requests[i].status)
  }

  ghost predicate UniqueMembers(members: seq<Member>) {
    forall i, j :: 0 <= i < j < |members| ==>
      && members[i].studentId != members[j].studentId
      && (members[i].email.Some? ==> members[i].email != members[j].email)
  }

  ghost predicate OnePending(requests: seq<Request>) {
    forall i, j :: 0 <= i < j < |requests| && requests[i].status == Pending && requests[j].status == Pending ==>
      requests[i].studentId != requests[j].studentId
  }

  ghost predicate AdmittedAreMembers(db: Db) {
    forall i :: 0 <= i < |db.requests| && Admitted(db.requests[i].status) ==>
      HasMember(db.members, db.requests[i].studentId)
  }

  ghost predicate ActivatedHaveCredentials(db: Db) {
    forall i :: 0 <= i < |db.requests| && db.requests[i].status == Activated ==>
      HasCredentials(db.auth, db.requests[i].studentId)
  }

  /** Nobody but the seeded accounts has a password without an approved request. */
  ghost predicate CredentialsAreAdmitted(db: Db, seeded: set<StudentId>) {
    forall k :: 0 <= k < |db.auth| && db.auth[k].studentId !in seeded ==>
      HasAdmission(db.requests, db.auth[k].studentId)
  }

  ghost predicate UniqueCredentials(auth: seq<Credential>) {
    forall i, j :: 0 <= i < j < |auth| ==> auth[i].studentId != auth[j].studentId
  }

  /** Every credential row belongs to the member row of its student. */
  ghost predicate CredentialsOfMembers(members: seq<Member>, auth: seq<Credential>) {
    forall k :: 0 <= k < |auth| ==> auth[k].member < |members| && members[auth[k].member].studentId == auth[k].studentId
  }

  ghost predicate IssuesAreAdmitted(db: Db) {
    forall k :: 0 <= k < |db.issues| ==>
      db.issues[k].request < |db.requests| && Admitted(db.requests[db.issues[k].request].status)
  }

  ghost predicate StartedAreAdmitted(s: State) {
    forall id :: id in s.started ==>
      && id < |s.db.requests|
      && Admitted(s.db.requests[id].status)
      && HasCredentials(s.db.auth, s.db.requests[id].studentId)
  }

  ghost predicate Inv(s: State, seeded: set<StudentId>) {
    && UniqueMembers(s.db.members)
    && OnePending(s.db.requests)
    && AdmittedAreMembers(s.db)
    && ActivatedHaveCredentials(s.db)
    && CredentialsAreAdmitted(s.db, seeded)
    && UniqueCredentials(s.db.auth)
    && CredentialsOfMembers(s.db.members, s.db.auth)
    && IssuesAreAdmitted(s.db)
    && StartedAreAdmitted(s)
  }

  /** The only moves of a request. */
  predicate Moves(before: RequestStatus, after: RequestStatus) {
    || before == after
    || (before == Pending && (after == Approved || after == Rejected))
    || (before == Approved && after == Activated)
  }

  /** What the moves add up to. */
  predicate Leads(before: RequestStatus, after: RequestStatus) {
    Moves(before, after) || (before == Pending && after == Activated)
  }

  /** Rows stay, keep their student and e-mail, and only move forward. */
  ghost predicate RequestsMove(before: seq<Request>, after: seq<Request>) {
    && |before| <= |after|
    && (forall i :: 0 <= i < |before| ==>
      && after[i].studentId == before[i].studentId
      && after[i].email == before[i].email
      && Moves(before[i].status, after[i].status))
  }

  ghost predicate MembersStay(before: seq<Member>, after: seq<Member>) {
    |before| <= |after| && forall i :: 0 <= i < |before| ==> after[i].studentId == before[i].studentId
  }

  ghost predicate CredentialsStay(before: seq<Credential>, after: seq<Credential>) {
    && |before| <= |after|
    && forall k :: 0 <= k < |before| ==>
      after[k].studentId == before[k].studentId && after[k].member == before[k].member
  }

  /** Storing a password sets it for this student and for nobody else, and keeps one row per student. */
  lemma StoredPassword(auth: seq<Credential>, member: nat, sid: StudentId, hash: string)
    requires UniqueCredentials(auth)
    ensures var after := WithPassword(auth, member, sid, hash);
      && UniqueCredentials(after) && CredentialsStay(auth, after)
      && PasswordOf(after, sid) == Some(hash)
      && (forall other :: other != sid ==> PasswordOf(after, other) == PasswordOf(auth, other))
      && (forall k :: |auth| <= k < |after| ==> after[k] == Credential(member, sid, hash) && k == |auth|)
  {
    var after := WithPassword(auth, member, sid, hash);
    hide CredentialAt;
    var p := CredentialAt(after, sid);
    assert after[CredentialAt(auth, sid)].studentId == sid;
    forall other | other != sid
      ensures PasswordOf(after, other) == PasswordOf(auth, other)
    {
      var i, j := CredentialAt(auth, other), CredentialAt(after, other);
      assert i < |auth| ==> after[i] == auth[i];
      assert j < |after| ==> after[j].studentId == other;
    }
  }

  lemma CredentialsPersist(before: seq<Credential>, after: seq<Credential>, sid: StudentId)
    requires CredentialsStay(before, after) && HasCredentials(before, sid)
    ensures HasCredentials(after, sid)
  {
    var p := CredentialAt(before, sid);
    hide CredentialAt;
    assert after[p].studentId == sid;
  }

  lemma PasswordRowsStay(auth: seq<Credential>, member: nat, sid: StudentId, hash: string)
    ensures CredentialsStay(auth, auth) && CredentialsStay(auth, WithPassword(auth, member, sid, hash))
    ensures HasCredentials(WithPassword(auth, member, sid, hash), sid)
  {
    var after := WithPassword(auth, member, sid, hash);
    hide CredentialAt;
    assert after[CredentialAt(auth, sid)].studentId == sid;
  }

  lemma SetMoves(requests: seq<Request>, id: nat, status: RequestStatus)
    requires id < |requests| && Moves(requests[id].status, status)
    ensures RequestsMove(requests, SetRequestStatus(requests, id, status))
  {
  }

  lemma AppendMoves(requests: seq<Request>, r: Request)
    ensures RequestsMove(requests, requests + [r]) && RequestsMove(requests, requests)
  {
  }

  lemma RowsStay(members: seq<Member>, m: Member, sid: StudentId)
    ensures MembersStay(members, members) && MembersStay(members, members + [m])
    ensures MemberAt(members, sid) < |members| && m.studentId == sid ==>
      MembersStay(members, members[MemberAt(members, sid) := m])
  {
    hide MemberAt;
  }

  lemma AdmittedRowsStay(members: seq<Member>, sid: StudentId, email: string)
    ensures MembersStay(members, Admit(members, sid, email))
  {
    hide MemberAt;
  }

  lemma StepMoves(s: State, a: Action)
    requires StartedAreAdmitted(s)
    ensures RequestsMove(s.db.requests, Step(s, a).db.requests)
    ensures MembersStay(s.db.members, Step(s, a).db.members)
    ensures CredentialsStay(s.db.auth, Step(s, a).db.auth)
  {
    hide MemberAt, EmailTaken, HasPending, RequestsMove, MembersStay, SetRequestStatus, CredentialsStay;
    hide Admit, WithPassword;
    hide CredentialAt;
    var requests, members, auth := s.db.requests, s.db.members, s.db.auth;
    PasswordRowsStay(auth, 0, "", "");
    AppendMoves(requests, Request("", "", Pending));
    RowsStay(members, Member("", None, "", Active), "");
    if Enabled(s, a) {
      match a
      case Create(sid, email) => AppendMoves(requests, Request(sid, email, Pending));
      case Approve(id) =>
        SetMoves(requests, id, Approved);
        AdmittedRowsStay(members, requests[id].studentId, requests[id].email);
      case Reject(id) => SetMoves(requests, id, Rejected);
      case Direct(sid, email, roles) =>
        AppendMoves(requests, Request(sid, email, Approved));
        RowsStay(members, Member(sid, Some(email), roles, Active), sid);
      case Edit(sid, status, email) =>
        RowsStay(members, members[MemberAt(members, sid)].(email := email, status := status), sid);
      case Finish(id) => SetMoves(requests, id, Activated);
      case ChangePassword(sid, _, hash) => PasswordRowsStay(auth, MemberAt(members, sid), sid, hash);
      case Begin(_, sid, hash) => PasswordRowsStay(auth, MemberAt(members, sid), sid, hash);
      case _ =>
    }
  }

  lemma MemberStays(before: seq<Member>, after: seq<Member>, sid: StudentId)
    requires MembersStay(before, after) && HasMember(before, sid)
    ensures HasMember(after, sid)
  {
    var i :| 0 <= i < |before| && before[i].studentId == sid;
    assert after[i].studentId == sid;
  }

  lemma AdmissionStays(before: seq<Request>, after: seq<Request>, sid: StudentId)
    requires RequestsMove(before, after) && HasAdmission(before, sid)
    ensures HasAdmission(after, sid)
  {
    var i :| 0 <= i < |before| && before[i].studentId == sid && Admitted(before[i].status);
    assert after[i].studentId == sid && Admitted(after[i].status);
  }

  // ---- every step keeps the invariant ----

  lemma ReplaceUnique(members: seq<Member>, m: Member)
    requires UniqueMembers(members)
    requires m.email.Some? ==> !EmailTaken(members, m.email.value, MemberAt(members, m.studentId))
    ensures MemberAt(members, m.studentId) < |members| ==>
      UniqueMembers(members[MemberAt(members, m.studentId) := m])
    ensures MemberAt(members, m.studentId) == |members| ==> UniqueMembers(members + [m])
  {
    var p := MemberAt(members, m.studentId);
    hide MemberAt;
    assert m.email.Some? ==> forall i :: 0 <= i < |members| && i != p ==> members[i].email != m.email;
  }

  lemma StepKeepsMembersUnique(s: State, a: Action)
    requires UniqueMembers(s.db.members)
    ensures UniqueMembers(Step(s, a).db.members)
  {
    hide UniqueMembers, EmailTaken, MemberAt;
    var members := s.db.members;
    if Enabled(s, a) {
      match a
      case Approve(id) =>
        var r := s.db.requests[id];
        var p := MemberAt(members, r.studentId);
        ReplaceUnique(members, if p < |members| then members[p].(email := Some(r.email), status := Active)
                               else Member(r.studentId, Some(r.email), "member", Active));
      case Direct(sid, email, roles) =>
        ReplaceUnique(members, Member(sid, Some(email), roles, Active));
      case Edit(sid, status, email) =>
        ReplaceUnique(members, members[MemberAt(members, sid)].(email := email, status := status));
      case _ =>
    }
  }

  lemma MovesKeepOnePending(before: seq<Request>, after: seq<Request>)
    requires OnePending(before) && RequestsMove(before, after) && |after| == |before|
    ensures OnePending(after)
  {
  }

  lemma AppendKeepsOnePending(requests: seq<Request>, r: Request)
    requires OnePending(requests) && (r.status == Pending ==> !HasPending(requests, r.studentId))
    ensures OnePending(requests + [r])
  {
  }

  lemma StepKeepsOnePending(s: State, a: Action)
    requires OnePending(s.db.requests) && StartedAreAdmitted(s)
    ensures OnePending(Step(s, a).db.requests)
  {
    StepMoves(s, a);
    hide OnePending, RequestsMove, MembersStay, CredentialsStay, MemberAt, EmailTaken, HasPending, Admit;
    hide CheckActivation, CheckChange, CheckEdit, WithPassword, HasCredentials;
    if a.Create? && Enabled(s, a) {
      AppendKeepsOnePending(s.db.requests, Request(a.sid, a.email, Pending));
    } else if a.Direct? && Enabled(s, a) {
      AppendKeepsOnePending(s.db.requests, Request(a.sid, a.email, Approved));
    } else {
      MovesKeepOnePending(s.db.requests, Step(s, a).db.requests);
    }
  }

  lemma AdmitsMember(members: seq<Member>, sid: StudentId, email: string)
    ensures HasMember(Admit(members, sid, email), sid) && MembersStay(members, Admit(members, sid, email))
  {
    var p := MemberAt(members, sid);
    hide MemberAt;
    assert Admit(members, sid, email)[p].studentId == sid;
  }

  lemma AppendedMember(members: seq<Member>, m: Member)
    ensures HasMember(members + [m], m.studentId)
  {
    assert (members + [m])[|members|] == m;
  }

  /** A request is admitted after a step if it was, or because this step approved or created it. */
  lemma AdmittedByStep(s: State, a: Action, i: nat)
    requires i < |Step(s, a).db.requests| && Admitted(Step(s, a).db.requests[i].status)
    requires StartedAreAdmitted(s)
    ensures var t := Step(s, a);
      || (i < |s.db.requests| && Admitted(s.db.requests[i].status))
      || (a.Approve? && i == a.id && i < |s.db.requests| && t.db.requests[i].studentId == s.db.requests[i].studentId
          && t.db.members == Admit(s.db.members, s.db.requests[i].studentId, s.db.requests[i].email))
      || (a.Direct? && t.db.requests[i].studentId == a.sid
          && t.db.members == s.db.members + [Member(a.sid, Some(a.email), a.roles, Active)])
  {
    hide MemberAt, EmailTaken, HasPending, CheckActivation, CheckChange, CheckEdit;
    hide CheckDirect, WithPassword, HasCredentials;
    hide Admit;
  }

  lemma StepKeepsAdmittedMembers(s: State, a: Action)
    requires AdmittedAreMembers(s.db) && StartedAreAdmitted(s)
    ensures AdmittedAreMembers(Step(s, a).db)
  {
    var t := Step(s, a);
    StepMoves(s, a);
    hide Step, HasMember, MembersStay, Admit, StartedAreAdmitted, CredentialsStay;
    forall i | 0 <= i < |t.db.requests| && Admitted(t.db.requests[i].status)
      ensures HasMember(t.db.members, t.db.requests[i].studentId)
    {
      AdmittedByStep(s, a, i);
      if i < |s.db.requests| && Admitted(s.db.requests[i].status) {
        MemberStays(s.db.members, t.db.members, s.db.requests[i].studentId);
      } else if a.Approve? {
        AdmitsMember(s.db.members, s.db.requests[i].studentId, s.db.requests[i].email);
      } else {
        AppendedMember(s.db.members, Member(a.sid, Some(a.email), a.roles, Active));
      }
    }
  }

  /** A request is activated after a step if it was, or because its started activation finished. */
  lemma ActivatedByStep(s: State, a: Action, i: nat)
    requires RequestsMove(s.db.requests, Step(s, a).db.requests)
    requires i < |Step(s, a).db.requests| && Step(s, a).db.requests[i].status == Activated
    ensures i < |s.db.requests| && Step(s, a).db.requests[i].studentId == s.db.requests[i].studentId
    ensures s.db.requests[i].status == Activated || i in s.started
  {
    hide MemberAt, EmailTaken, HasPending, HasCredentials, WithPassword, CheckActivation, CheckDirect;
    hide CheckEdit, CheckCreate, CheckChange, Admit;
    var requests, after := s.db.requests, Step(s, a).db.requests;
    assert |after| <= |requests| + 1;
    assert |after| == |requests| + 1 ==> after[|requests|].status != Activated;
  }

  lemma StepKeepsActivated(s: State, a: Action)
    requires ActivatedHaveCredentials(s.db) && StartedAreAdmitted(s)
    ensures ActivatedHaveCredentials(Step(s, a).db)
  {
    var t := Step(s, a);
    StepMoves(s, a);
    hide Step, HasCredentials, CredentialsStay, RequestsMove, MembersStay;
    forall i | 0 <= i < |t.db.requests| && t.db.requests[i].status == Activated
      ensures HasCredentials(t.db.auth, t.db.requests[i].studentId)
    {
      ActivatedByStep(s, a, i);
      CredentialsPersist(s.db.auth, t.db.auth, s.db.requests[i].studentId);
    }
  }

  /** What a step does to the credential rows. */
  lemma StepStores(s: State, a: Action)
    ensures var t := Step(s, a);
      || t.db.auth == s.db.auth
      || (a.Begin? && CheckActivation(s.db, a.id, a.sid) == None
          && t.db == StoreCredentials(s.db, a.sid, a.hash))
      || (a.ChangePassword? && HasCredentials(s.db.auth, a.sid) && t.db == StoreCredentials(s.db, a.sid, a.hash))
  {
    hide MemberAt, EmailTaken, HasPending, HasCredentials, CheckActivation, WithPassword;
  }

  lemma StepKeepsCredentials(s: State, a: Action, seeded: set<StudentId>)
    requires CredentialsAreAdmitted(s.db, seeded) && StartedAreAdmitted(s)
    requires UniqueCredentials(s.db.auth) && CredentialsOfMembers(s.db.members, s.db.auth)
    ensures CredentialsAreAdmitted(Step(s, a).db, seeded)
    ensures UniqueCredentials(Step(s, a).db.auth) && CredentialsOfMembers(Step(s, a).db.members, Step(s, a).db.auth)
  {
    var t := Step(s, a);
    StepMoves(s, a);
    StepStores(s, a);
    if t.db.auth != s.db.auth {
      StoredPassword(s.db.auth, MemberAt(s.db.members, a.sid), a.sid, a.hash);
    }
    hide Step, MemberAt, EmailTaken, UniqueCredentials, PasswordOf, WithPassword, CredentialAt;
    forall k | 0 <= k < |t.db.auth|
      ensures t.db.auth[k].studentId !in seeded ==> HasAdmission(t.db.requests, t.db.auth[k].studentId)
      ensures t.db.auth[k].member < |t.db.members|
      ensures t.db.members[t.db.auth[k].member].studentId == t.db.auth[k].studentId
    {
      if k < |s.db.auth| {
        if t.db.auth[k].studentId !in seeded {
          AdmissionStays(s.db.requests, t.db.requests, s.db.auth[k].studentId);
        }
      } else {
        assert s.db.requests[a.id].studentId == a.sid;
        AdmissionStays(s.db.requests, t.db.requests, a.sid);
      }
    }
  }

  lemma AdmittedStays(before: seq<Request>, after: seq<Request>, id: nat)
    requires RequestsMove(before, after) && id < |before| && Admitted(before[id].status)
    ensures id < |after| && Admitted(after[id].status) && after[id].studentId == before[id].studentId
  {
  }

  lemma StepKeepsIssues(s: State, a: Action)
    requires IssuesAreAdmitted(s.db) && StartedAreAdmitted(s)
    ensures IssuesAreAdmitted(Step(s, a).db)
  {
    var t := Step(s, a);
    StepMoves(s, a);
    hide MemberAt, EmailTaken, HasPending, RequestsMove, CheckActivation, CheckCreate, CheckDirect, CheckEdit, Admit;
    forall k | 0 <= k < |t.db.issues|
      ensures t.db.issues[k].request < |t.db.requests| && Admitted(t.db.requests[t.db.issues[k].request].status)
    {
      if k < |s.db.issues| {
        AdmittedStays(s.db.requests, t.db.requests, s.db.issues[k].request);
      }
    }
  }

  /** An activation is under way if it was, or because this step began it. */
  lemma StartedByStep(s: State, a: Action)
    ensures var t := Step(s, a);
      forall id :: id in t.started ==>
        || id in s.started
        || (a.Begin? && id == a.id && id < |s.db.requests| && s.db.requests[id].studentId == a.sid
            && s.db.requests[id].status == Approved && t.db == StoreCredentials(s.db, a.sid, a.hash))
  {
    hide MemberAt, EmailTaken, HasPending, CheckApprove, CheckCreate, CheckDirect;
    hide CheckEdit, CheckReissue, Admit, WithPassword;
  }

  lemma StepKeepsStarted(s: State, a: Action)
    requires StartedAreAdmitted(s)
    ensures StartedAreAdmitted(Step(s, a))
  {
    var t := Step(s, a);
    StepMoves(s, a);
    StartedByStep(s, a);
    hide Step, HasCredentials, CredentialsStay, WithPassword, RequestsMove;
    forall id | id in t.started
      ensures id < |t.db.requests| && Admitted(t.db.requests[id].status)
      ensures HasCredentials(t.db.auth, t.db.requests[id].studentId)
    {
      if id in s.started {
        AdmittedStays(s.db.requests, t.db.requests, id);
        CredentialsPersist(s.db.auth, t.db.auth, s.db.requests[id].studentId);
      } else {
        PasswordRowsStay(s.db.auth, MemberAt(s.db.members, a.sid), a.sid, a.hash);
      }
    }
  }

  lemma StepKeepsInv(s: State, a: Action, seeded: set<StudentId>)
    requires Inv(s, seeded)
    ensures Inv(Step(s, a), seeded)
  {
    hide Step, UniqueMembers, OnePending, AdmittedAreMembers, ActivatedHaveCredentials, CredentialsAreAdmitted;
    hide IssuesAreAdmitted, StartedAreAdmitted, UniqueCredentials, CredentialsOfMembers;
    StepKeepsMembersUnique(s, a);
    StepKeepsOnePending(s, a);
    StepKeepsAdmittedMembers(s, a);
    StepKeepsActivated(s, a);
    StepKeepsCredentials(s, a, seeded);
    StepKeepsIssues(s, a);
    StepKeepsStarted(s, a);
  }

  // ---- main results ----

  lemma {:induction false} InvAlways(s: State, actions: seq<Action>, seeded: set<StudentId>)
    requires Inv(s, seeded)
    ensures Inv(Run(s, actions), seeded)
  {
    hide Inv, Step;
    if |actions| > 0 {
      InvAlways(s, actions[..|actions| - 1], seeded);
      StepKeepsInv(Run(s, actions[..|actions| - 1]), actions[|actions| - 1], seeded);
    }
  }

  /** An installation before the first signup: seeded accounts with distinct students and e-mails. */
  function Installed(members: seq<Member>, auth: seq<Credential>): State {
    State(Db([], members, auth, []), multiset{})
  }

  function Owners(auth: seq<Credential>): set<StudentId> {
    set k | 0 <= k < |auth| :: auth[k].studentId
  }

  lemma FreshInstallation(members: seq<Member>, auth: seq<Credential>)
    requires UniqueMembers(members) && UniqueCredentials(auth) && CredentialsOfMembers(members, auth)
    ensures Inv(Installed(members, auth), Owners(auth))
  {
    assert forall k :: 0 <= k < |auth| ==> auth[k].studentId in Owners(auth);
  }

  /** Whatever happens, a request moves pending to approved to activated or pending to rejected, and
      keeps its student. */
  lemma {:induction false} StatusOnlyMovesForward(s: State, actions: seq<Action>, seeded: set<StudentId>, i: nat)
    requires Inv(s, seeded) && i < |s.db.requests|
    ensures i < |Run(s, actions).db.requests|
    ensures Run(s, actions).db.requests[i].studentId == s.db.requests[i].studentId
    ensures Leads(s.db.requests[i].status, Run(s, actions).db.requests[i].status)
  {
    hide Inv, Step;
    if |actions| > 0 {
      var before := Run(s, actions[..|actions| - 1]);
      StatusOnlyMovesForward(s, actions[..|actions| - 1], seeded, i);
      InvAlways(s, actions[..|actions| - 1], seeded);
      assert StartedAreAdmitted(before) by { InvStarted(before, seeded); }
      StepMoves(before, actions[|actions| - 1]);
    }
  }

  lemma InvStarted(s: State, seeded: set<StudentId>)
    requires Inv(s, seeded)
    ensures StartedAreAdmitted(s)
  {
  }

  /** The four promises of the life cycle, over every run. */
  lemma {:induction false} LifecycleHolds(s: State, actions: seq<Action>, seeded: set<StudentId>)
    requires Inv(s, seeded)
    ensures var db := Run(s, actions).db;
      && OnePending(db.requests)
      && AdmittedAreMembers(db)
      && ActivatedHaveCredentials(db)
      && CredentialsAreAdmitted(db, seeded)
  {
    hide Run;
    InvAlways(s, actions, seeded);
  }

  /** So they hold whatever happens to a fresh installation. */
  lemma {:induction false} LifecycleFromInstallation(members: seq<Member>, auth: seq<Credential>, actions: seq<Action>)
    requires UniqueMembers(members) && UniqueCredentials(auth) && CredentialsOfMembers(members, auth)
    ensures var db := Run(Installed(members, auth), actions).db;
      && OnePending(db.requests)
      && AdmittedAreMembers(db)
      && ActivatedHaveCredentials(db)
      && CredentialsAreAdmitted(db, Owners(auth))
  {
    hide Run, Inv;
    FreshInstallation(members, auth);
    LifecycleHolds(Installed(members, auth), actions, Owners(auth));
  }

  /** A token that was used to the end never works again. */
  lemma {:induction false} ActivatedTokenIsSpent(s: State, actions: seq<Action>, seeded: set<StudentId>, id: nat,
      sid: StudentId)
    requires Inv(s, seeded) && id < |s.db.requests| && s.db.requests[id].status == Activated
    ensures var refused := CheckActivation(Run(s, actions).db, id, sid);
      refused == Some(if s.db.requests[id].studentId == sid then ActivationAlreadyUsed else InvalidActivationToken)
  {
    StatusOnlyMovesForward(s, actions, seeded, id);
  }

  /** The token of a rejected request never works. */
  lemma {:induction false} RejectedTokenNeverWorks(s: State, actions: seq<Action>, seeded: set<StudentId>, id: nat,
      sid: StudentId)
    requires Inv(s, seeded) && id < |s.db.requests| && s.db.requests[id].status == Rejected
    ensures CheckActivation(Run(s, actions).db, id, sid) == Some(InvalidActivationToken)
  {
    StatusOnlyMovesForward(s, actions, seeded, id);
  }

  /** A student's password changes only by an activation for that student or the student's own change. */
  lemma {:induction false} PasswordsAreSeparate(s: State, actions: seq<Action>, seeded: set<StudentId>, sid: StudentId)
    requires Inv(s, seeded)
    requires forall i :: 0 <= i < |actions| && (actions[i].Begin? || actions[i].ChangePassword?) ==>
      actions[i].sid != sid
    ensures PasswordOf(Run(s, actions).db.auth, sid) == PasswordOf(s.db.auth, sid)
  {
    hide Inv, Step, PasswordOf, CheckActivation, HasCredentials, WithPassword;
    if |actions| > 0 {
      var before, a := Run(s, actions[..|actions| - 1]), actions[|actions| - 1];
      PasswordsAreSeparate(s, actions[..|actions| - 1], seeded, sid);
      InvAlways(s, actions[..|actions| - 1], seeded);
      InvCredentials(before, seeded);
      StepStores(before, a);
      if a.Begin? || a.ChangePassword? {
        StoredPassword(before.db.auth, MemberAt(before.db.members, a.sid), a.sid, a.hash);
      }
    }
  }

  lemma InvCredentials(s: State, seeded: set<StudentId>)
    requires Inv(s, seeded)
    ensures UniqueCredentials(s.db.auth)
  {
  }

  /** A worker that stops between the two commits leaves an activation that can be repeated, and
      the repetition ends in the state that one uninterrupted activation reaches. */
  lemma {:induction false} CrashThenRepeat(s: State, id: nat, sid: StudentId, lost: string, hash: string)
    requires CheckActivation(s.db, id, sid) == None
    ensures var crashed := Run(s, [Begin(id, sid, lost), Crash(id)]);
      && CheckActivation(crashed.db, id, sid) == None
      && Run(crashed, [Begin(id, sid, hash), Finish(id)]) == Run(s, [Begin(id, sid, hash), Finish(id)])
  {
    var begun, stored := Step(s, Begin(id, sid, lost)), Step(s, Begin(id, sid, hash));
    BeginMeaning(s, id, sid, lost);
    BeginMeaning(s, id, sid, hash);
    RunTwo(s, Begin(id, sid, lost), Crash(id));
    RunTwo(s, Begin(id, sid, hash), Finish(id));
    var crashed := Step(begun, Crash(id));
    hide CheckActivation, Run, MarkActivated;
    assert crashed == State(StoreCredentials(s.db, sid, lost), s.started) by {
      assert s.started + multiset{id} - multiset{id} == s.started;
    }
    BeginMeaning(crashed, id, sid, hash);
    RunTwo(crashed, Begin(id, sid, hash), Finish(id));
    StoreTwice(s.db.auth, MemberAt(s.db.members, sid), sid, lost, hash);
    assert Step(crashed, Begin(id, sid, hash)) == stored;
  }

  lemma StoreTwice(auth: seq<Credential>, member: nat, sid: StudentId, lost: string, hash: string)
    ensures WithPassword(WithPassword(auth, member, sid, lost), member, sid, hash)
         == WithPassword(auth, member, sid, hash)
  {
    hide CredentialAt;
    var once := WithPassword(auth, member, sid, lost);
    SamePlace(auth, once, sid);
  }

  /** The row that was written is the one that is found. */
  lemma SamePlace(auth: seq<Credential>, after: seq<Credential>, sid: StudentId)
    requires |after| >= |auth| && |after| > CredentialAt(auth, sid)
    requires forall k :: 0 <= k < |auth| ==> after[k].studentId == auth[k].studentId
    requires after[CredentialAt(auth, sid)].studentId == sid
    ensures CredentialAt(after, sid) == CredentialAt(auth, sid)
  {
    hide CredentialAt;
    CredentialFirst(auth, sid);
    CredentialFirst(after, sid);
  }

  lemma {:induction false} CredentialFirst(auth: seq<Credential>, sid: StudentId)
    ensures forall i :: 0 <= i < CredentialAt(auth, sid) ==> auth[i].studentId != sid
  {
    if |auth| > 0 {
      CredentialFirst(auth[..|auth| - 1], sid);
    }
  }

  lemma BeginMeaning(s: State, id: nat, sid: StudentId, hash: string)
    requires CheckActivation(s.db, id, sid) == None
    ensures Step(s, Begin(id, sid, hash)) == State(StoreCredentials(s.db, sid, hash), s.started + multiset{id})
    ensures CheckActivation(StoreCredentials(s.db, sid, hash), id, sid) == None
  {
  }

  lemma RunTwo(s: State, a: Action, b: Action)
    ensures Run(s, [a, b]) == Step(Step(s, a), b)
  {
    hide Step;
    assert [a, b][..1] == [a] && [a][..0] == [];
    assert Run(s, [a]) == Step(s, a);
  }

  // ---- what one activation adds up to ----

  lemma {:induction false} RunConcat(s: State, a: seq<Action>, b: seq<Action>)
    ensures Run(s, a + b) == Run(Run(s, a), b)
  {
    hide Step;
    if |b| == 0 {
      assert a + b == a;
    } else {
      var n := |b| - 1;
      RunConcat(s, a, b[..n]);
      assert (a + b)[..|a + b| - 1] == a + b[..n];
    }
  }

  /** The activation is under way, or its request is activated. */
  predicate StartedOrSpent(s: State, id: nat) {
    id < |s.db.requests| && (id in s.started || s.db.requests[id].status == Activated)
  }

  /** Only its own finish or crash ends an activation that is under way. */
  lemma StartedStays(s: State, a: Action, id: nat)
    requires id in s.started && a != Crash(id)
    ensures id in Step(s, a).started || a == Finish(id)
  {
    hide MemberAt, EmailTaken, HasPending, HasCredentials, CheckActivation, CheckChange, CheckEdit, CheckDirect;
    hide CheckApprove, CheckCreate, CheckReissue, CheckPending, Admit, WithPassword, SetRequestStatus;
  }

  lemma FinishActivates(s: State, id: nat)
    requires id in s.started && id < |s.db.requests|
    ensures Step(s, Finish(id)).db.requests[id].status == Activated
  {
  }

  lemma SpentStays(before: seq<Request>, after: seq<Request>, id: nat)
    requires RequestsMove(before, after) && id < |before|
    ensures id < |after| && (before[id].status == Activated ==> after[id].status == Activated)
  {
  }

  lemma StaysStartedOrSpent(s: State, a: Action, id: nat)
    requires StartedAreAdmitted(s) && StartedOrSpent(s, id) && a != Crash(id)
    ensures StartedOrSpent(Step(s, a), id)
    ensures a == Finish(id) ==> Step(s, a).db.requests[id].status == Activated
  {
    StepMoves(s, a);
    hide Step, RequestsMove, MembersStay, CredentialsStay, StartedAreAdmitted;
    SpentStays(s.db.requests, Step(s, a).db.requests, id);
    if id in s.started {
      StartedStays(s, a, id);
      FinishActivates(s, id);
    }
  }

  lemma {:induction false} StaysStarted(s: State, actions: seq<Action>, seeded: set<StudentId>, id: nat)
    requires Inv(s, seeded) && StartedOrSpent(s, id)
    requires forall i :: 0 <= i < |actions| ==> actions[i] != Crash(id)
    ensures StartedOrSpent(Run(s, actions), id)
  {
    hide Inv, Step, StartedOrSpent;
    if |actions| > 0 {
      var n := |actions| - 1;
      StaysStarted(s, actions[..n], seeded, id);
      InvAlways(s, actions[..n], seeded);
      InvStarted(Run(s, actions[..n]), seeded);
      StaysStartedOrSpent(Run(s, actions[..n]), actions[n], id);
    }
  }

  lemma RunOne(s: State, a: Action)
    ensures Run(s, [a]) == Step(s, a)
  {
    hide Step;
    assert [a][..0] == [];
  }

  lemma BeginStarts(s: State, id: nat, sid: StudentId, hash: string)
    requires CheckActivation(s.db, id, sid) == None
    ensures StartedOrSpent(Step(s, Begin(id, sid, hash)), id)
    ensures id < |Step(s, Begin(id, sid, hash)).db.requests|
    ensures Step(s, Begin(id, sid, hash)).db.requests[id].studentId == sid
  {
    BeginMeaning(s, id, sid, hash);
    hide MemberAt, WithPassword, Step;
  }

  /** An accepted activation that is not interrupted spends its token, whatever runs between its two commits
      and whatever runs later: the request ends activated, and the token is refused as already used. */
  lemma {:induction false} ActivationSpendsToken(
    s: State, id: nat, sid: StudentId, hash: string, between: seq<Action>, later: seq<Action>, seeded: set<StudentId>)
    requires Inv(s, seeded) && CheckActivation(s.db, id, sid) == None
    requires forall i :: 0 <= i < |between| ==> between[i] != Crash(id)
    ensures var db := Run(s, [Begin(id, sid, hash)] + between + [Finish(id)] + later).db;
      && id < |db.requests| && db.requests[id].studentId == sid && db.requests[id].status == Activated
      && CheckActivation(db, id, sid) == Some(ActivationAlreadyUsed)
  {
    hide Inv, Step, CheckActivation, StartedOrSpent;
    var begun := Run(s, [Begin(id, sid, hash)]);
    RunOne(s, Begin(id, sid, hash));
    BeginStarts(s, id, sid, hash);
    InvAlways(s, [Begin(id, sid, hash)], seeded);
    StaysStarted(begun, between, seeded, id);
    InvAlways(begun, between, seeded);
    StatusOnlyMovesForward(begun, between, seeded, id);
    var open := Run(begun, between);
    InvStarted(open, seeded);
    StaysStartedOrSpent(open, Finish(id), id);
    RunOne(open, Finish(id));
    var done := Run(open, [Finish(id)]);
    InvAlways(open, [Finish(id)], seeded);
    StatusOnlyMovesForward(open, [Finish(id)], seeded, id);
    StatusOnlyMovesForward(done, later, seeded, id);
    ActivatedTokenIsSpent(done, later, seeded, id, sid);
    RunConcat(s, [Begin(id, sid, hash)], between);
    RunConcat(s, [Begin(id, sid, hash)] + between, [Finish(id)]);
    RunConcat(s, [Begin(id, sid, hash)] + between + [Finish(id)], later);
  }

  // ---- the operations in plain terms ----

  /** A refusal changes nothing. */
  ghost predicate Refusal(before: Db, after: Db, r: Result<nat, Error>) { r.Err? ==> after == before }

  predicate IsActiveMember(members: seq<Member>, sid: StudentId) {
    MemberAt(members, sid) < |members| && members[MemberAt(members, sid)].status == Active
  }

  ghost predicate CreateTold(before: Db, after: Db, r: Result<nat, Error>, sid: StudentId, email: string) {
    var active := IsActiveMember(before.members, sid);
    var pending := exists i :: 0 <= i < |before.requests| && before.requests[i].studentId == sid
                               && before.requests[i].status == Pending;
    && (r.Err? ==> after == before && r.error == if active then MemberAlreadyActive else SignupAlreadyPending)
    && (r.Ok? <==> !active && !pending)
    && (r.Ok? ==> r.value == |before.requests| && after == Db(
          before.requests + [Request(sid, email, Pending)], before.members, before.auth, before.issues))
  }

  lemma CreateTells(db: Db, sid: StudentId, email: string)
    ensures var refused := CheckCreate(db, sid);
      CreateTold(db, if refused.None? then DoCreate(db, sid, email) else db,
                 Accepted(refused, |db.requests|), sid, email)
  {
    hide MemberAt;
  }

  /** No row but this one has the e-mail. */
  ghost predicate EmailFree(members: seq<Member>, email: string, except: nat) {
    forall i :: 0 <= i < |members| && i != except ==> members[i].email != Some(email)
  }

  /** The student's inactive member gets the e-mail and is active again with the old roles; a student who is
      no member becomes a plain one. */
  ghost predicate Admission(before: seq<Member>, after: seq<Member>, sid: StudentId, email: string) {
    var p := MemberAt(before, sid);
    after == if p < |before| then before[p := Member(sid, Some(email), before[p].roles, Active)]
             else before + [Member(sid, Some(email), "member", Active)]
  }

  ghost predicate ApproveTold(before: Db, after: Db, r: Result<nat, Error>, id: nat) {
    var known := id < |before.requests|;
    var row := if known then before.requests[id] else Request("", "", Pending);
    var active, free := IsActiveMember(before.members, row.studentId),
                        EmailFree(before.members, row.email, MemberAt(before.members, row.studentId));
    && (r.Err? ==> after == before && r.error == if !known then RequestNotFound
                                                 else if row.status != Pending then RequestNotPending
                                                 else if active then MemberAlreadyActive else EmailInUse)
    && (r.Ok? <==> known && row.status == Pending && !active && free)
    && (r.Ok? ==>
          && r.value == id && Admission(before.members, after.members, row.studentId, row.email)
          && after.requests == before.requests[id := Request(row.studentId, row.email, Approved)]
          && after.issues == before.issues + [Issue(id, false)] && after.auth == before.auth)
  }

  lemma ApproveTells(db: Db, id: nat)
    ensures var refused := CheckApprove(db, id);
      ApproveTold(db, if refused.None? then DoApprove(db, id) else db, Accepted(refused, id), id)
  {
    hide MemberAt;
  }

  ghost predicate RejectTold(before: Db, after: Db, r: Result<nat, Error>, id: nat) {
    var known := id < |before.requests|;
    && (r.Err? ==> after == before && r.error == if known then RequestNotPending else RequestNotFound)
    && (r.Ok? <==> known && before.requests[id].status == Pending)
    && (r.Ok? ==> r.value == id && after == before.(requests := before.requests[id :=
          Request(before.requests[id].studentId, before.requests[id].email, Rejected)]))
  }

  lemma RejectTells(db: Db, id: nat)
    ensures var refused := CheckPending(db, id);
      RejectTold(db, if refused.None? then DoReject(db, id) else db, Accepted(refused, id), id)
  {
  }

  ghost predicate ReissueTold(before: Db, after: Db, r: Result<nat, Error>, id: nat) {
    var known := id < |before.requests|;
    && (r.Err? ==> after == before && r.error == if known then RequestNotApproved else RequestNotFound)
    && (r.Ok? <==> known && before.requests[id].status == Approved)
    && (r.Ok? ==> r.value == id && after == before.(issues := before.issues + [Issue(id, true)]))
  }

  lemma ReissueTells(db: Db, id: nat)
    ensures var refused := CheckReissue(db, id);
      ReissueTold(db, if refused.None? then DoReissue(db, id) else db, Accepted(refused, id), id)
  {
  }

  ghost predicate DirectTold(
    before: Db, after: Db, r: Result<nat, Error>, sid: StudentId, email: string, roles: string)
  {
    var member := exists i :: 0 <= i < |before.members| && before.members[i].studentId == sid;
    && (r.Err? ==> after == before && r.error == if member then MemberExists else EmailInUse)
    && (r.Ok? <==> !member && EmailFree(before.members, email, |before.members|))
    && (r.Ok? ==> r.value == |before.requests| && after == Db(
          before.requests + [Request(sid, email, Approved)],
          before.members + [Member(sid, Some(email), roles, Active)], before.auth, before.issues))
  }

  lemma DirectTells(db: Db, sid: StudentId, email: string, roles: string)
    ensures var refused := CheckDirect(db, sid, email);
      DirectTold(db, if refused.None? then DoDirect(db, sid, email, roles) else db,
                 Accepted(refused, |db.requests|), sid, email, roles)
  {
    hide MemberAt;
    var p := MemberAt(db.members, sid);
    assert p < |db.members| ==> db.members[p].studentId == sid;
  }

  /** An administrator's edit needs the member and a free e-mail, and changes the two fields of that row. */
  lemma EditTells(db: Db, sid: StudentId, status: MemberStatus, email: Option<string>)
    ensures var p := MemberAt(db.members, sid);
      && CheckEdit(db, sid, email) ==
           (if p == |db.members| then Some(MemberNotFound)
            else if email.Some? && !EmailFree(db.members, email.value, p) then Some(EmailInUse) else None)
      && (p < |db.members| ==> DoEdit(db, sid, status, email) == Db(
            db.requests, db.members[p := Member(sid, email, db.members[p].roles, status)], db.auth, db.issues))
  {
    hide MemberAt;
  }

  /** The student's credentials hold this hash, in the row they had or in a new one for this member; no other
      row changes. */
  ghost predicate PasswordStored(
    before: seq<Credential>, after: seq<Credential>, member: nat, sid: StudentId, hash: string)
  {
    && |before| <= |after|
    && (forall k :: 0 <= k < |before| ==>
          after[k] == if before[k].studentId == sid then Credential(before[k].member, sid, hash) else before[k])
    && after[|before|..] == if exists k :: 0 <= k < |before| && before[k].studentId == sid then []
                            else [Credential(member, sid, hash)]
  }

  lemma StoreTells(auth: seq<Credential>, member: nat, sid: StudentId, hash: string)
    requires UniqueCredentials(auth)
    ensures PasswordStored(auth, WithPassword(auth, member, sid, hash), member, sid, hash)
  {
    hide CredentialAt;
    var p := CredentialAt(auth, sid);
    assert p < |auth| ==> auth[p].studentId == sid;
  }

  /** Which of the checks fails first. */
  function ActivationError(db: Db, id: nat, sid: StudentId): Error {
    if id >= |db.requests| || db.requests[id].studentId != sid then InvalidActivationToken
    else if db.requests[id].status == Activated then ActivationAlreadyUsed
    else if db.requests[id].status != Approved then InvalidActivationToken
    else if MemberAt(db.members, sid) == |db.members| then ActivationMemberMissing
    else MemberNotActive
  }

  /** An activation is accepted for the approved request of this student, who is an active member. It stores the
      password and then, unless it stops, marks the request activated. */
  ghost predicate ActivateTold(
    before: Db, after: Db, r: Result<nat, Error>, id: nat, sid: StudentId, hash: string, stops: bool)
  {
    var known := id < |before.requests| && before.requests[id].studentId == sid;
    && (r.Err? ==> after == before && r.error == ActivationError(before, id, sid))
    && (r.Ok? <==> known && before.requests[id].status == Approved && IsActiveMember(before.members, sid))
    && (r.Ok? ==>
          && r.value == id && after.members == before.members && after.issues == before.issues
          && PasswordStored(before.auth, after.auth, MemberAt(before.members, sid), sid, hash)
          && after.requests == (if stops then before.requests
                                else before.requests[id := Request(sid, before.requests[id].email, Activated)]))
  }

  /** One activation, stopped between its commits or not, as the two steps of a run make it. */
  lemma ActivateTells(db: Db, id: nat, sid: StudentId, hash: string, stops: bool)
    requires UniqueCredentials(db.auth)
    ensures var refused := CheckActivation(db, id, sid);
      var stored := StoreCredentials(db, sid, hash);
      ActivateTold(db, if refused.Some? then db else if stops then stored else MarkActivated(stored, id),
                   Accepted(refused, id), id, sid, hash, stops)
  {
    hide MemberAt, PasswordStored, WithPassword, UniqueCredentials;
    StoreTells(db.auth, MemberAt(db.members, sid), sid, hash);
  }

  ghost predicate ChangeTold(
    before: Db, after: Db, error: Option<Error>, sid: StudentId, verified: bool, hash: string)
  {
    var has := exists k :: 0 <= k < |before.auth| && before.auth[k].studentId == sid;
    && error == (if !has then Some(Unauthorized) else if !verified then Some(LoginFailed) else None)
    && (error.Some? ==> after == before)
    && (error.None? ==>
          && after == before.(auth := after.auth)
          && PasswordStored(before.auth, after.auth, MemberAt(before.members, sid), sid, hash))
  }

  lemma ChangeTells(db: Db, sid: StudentId, verified: bool, hash: string)
    requires UniqueCredentials(db.auth)
    ensures var refused := CheckChange(db, sid, verified);
      ChangeTold(db, if refused.None? then StoreCredentials(db, sid, hash) else db, refused, sid, verified, hash)
  {
    hide MemberAt, PasswordStored, WithPassword, UniqueCredentials, CredentialAt;
    StoreTells(db.auth, MemberAt(db.members, sid), sid, hash);
    var p := CredentialAt(db.auth, sid);
    assert p < |db.auth| ==> db.auth[p].studentId == sid;
  }

  // ---- the service ----

  class SignupService {
    var requests: seq<Request>
    var members: seq<Member>
    var auth: seq<Credential>
    var issues: seq<Issue>

    constructor (members: seq<Member>, auth: seq<Credential>)
      ensures Contents() == Db([], members, auth, [])
    {
      this.requests, this.members, this.auth, this.issues := [], members, auth, [];
    }

    function Contents(): Db
      reads this
    {
      Db(requests, members, auth, issues)
    }

    method CreateSignupRequest(sid: StudentId, email: string) returns (r: Result<nat, Error>)
      modifies this
      ensures r == Accepted(CheckCreate(old(Contents()), sid), |old(requests)|)
      ensures Contents() == if r.Ok? then DoCreate(old(Contents()), sid, email) else old(Contents())
      ensures CreateTold(old(Contents()), Contents(), r, sid, email)
    {
      CreateTells(Contents(), sid, email);
      var p := MemberAt(members, sid);
      if p < |members| && members[p].status == Active {
        return Err(MemberAlreadyActive);
      }
      if HasPending(requests, sid) {
        return Err(SignupAlreadyPending);
      }
      requests := requests + [Request(sid, email, Pending)];
      r := Ok(|requests| - 1);
    }

    method ApproveSignupRequest(id: nat) returns (r: Result<nat, Error>)
      modifies this
      ensures r == Accepted(CheckApprove(old(Contents()), id), id)
      ensures Contents() == if r.Ok? then DoApprove(old(Contents()), id) else old(Contents())
      ensures ApproveTold(old(Contents()), Contents(), r, id)
    {
      ApproveTells(Contents(), id);
      if id >= |requests| {
        return Err(RequestNotFound);
      }
      var row := requests[id];
      if row.status != Pending {
        return Err(RequestNotPending);
      }
      var p := MemberAt(members, row.studentId);
      if p < |members| && members[p].status == Active {
        return Err(MemberAlreadyActive);
      }
      if EmailTaken(members, row.email, p) {
        return Err(EmailInUse);
      }
      if p == |members| {
        members := members + [Member(row.studentId, Some(row.email), "member", Active)];
      } else {
        members := members[p := members[p].(email := Some(row.email), status := Active)];
      }
      requests := requests[id := row.(status := Approved)];
      issues := issues + [Issue(id, false)];
      r := Ok(id);
    }

    method RejectSignupRequest(id: nat) returns (r: Result<nat, Error>)
      modifies this
      ensures r == Accepted(CheckPending(old(Contents()), id), id)
      ensures Contents() == if r.Ok? then DoReject(old(Contents()), id) else old(Contents())
      ensures RejectTold(old(Contents()), Contents(), r, id)
    {
      RejectTells(Contents(), id);
      if id >= |requests| {
        return Err(RequestNotFound);
      }
      if requests[id].status != Pending {
        return Err(RequestNotPending);
      }
      requests := requests[id := requests[id].(status := Rejected)];
      r := Ok(id);
    }

    method ReissueActivationToken(id: nat) returns (r: Result<nat, Error>)
      modifies this
      ensures r == Accepted(CheckReissue(old(Contents()), id), id)
      ensures Contents() == if r.Ok? then DoReissue(old(Contents()), id) else old(Contents())
      ensures ReissueTold(old(Contents()), Contents(), r, id)
    {
      ReissueTells(Contents(), id);
      if id >= |requests| {
        return Err(RequestNotFound);
      }
      if requests[id].status != Approved {
        return Err(RequestNotApproved);
      }
      issues := issues + [Issue(id, true)];
      r := Ok(id);
    }

    method CreateMemberDirect(sid: StudentId, email: string, roles: string) returns (r: Result<nat, Error>)
      modifies this
      ensures r == Accepted(CheckDirect(old(Contents()), sid, email), |old(requests)|)
      ensures Contents() == if r.Ok? then DoDirect(old(Contents()), sid, email, roles) else old(Contents())
      ensures DirectTold(old(Contents()), Contents(), r, sid, email, roles)
    {
      DirectTells(Contents(), sid, email, roles);
      if MemberAt(members, sid) < |members| {
        return Err(MemberExists);
      }
      if EmailTaken(members, email, |members|) {
        return Err(EmailInUse);
      }
      members := members + [Member(sid, Some(email), roles, Active)];
      requests := requests + [Request(sid, email, Approved)];
      r := Ok(|requests| - 1);
    }

    method ResolveActivationSignupRequest(id: nat, sid: StudentId) returns (r: Result<nat, Error>)
      ensures r.Ok? <==> id < |requests| && requests[id].studentId == sid && requests[id].status == Approved
      ensures r.Ok? ==> r.value == id
      ensures r.Err? ==> CheckActivation(Contents(), id, sid) == Some(r.error)
    {
      if id >= |requests| || requests[id].studentId != sid {
        return Err(InvalidActivationToken);
      }
      if requests[id].status == Activated {
        return Err(ActivationAlreadyUsed);
      }
      if requests[id].status != Approved {
        return Err(InvalidActivationToken);
      }
      r := Ok(id);
    }

    method ResolveActivationMember(sid: StudentId) returns (r: Result<nat, Error>)
      ensures r.Ok? <==> MemberAt(members, sid) < |members| && members[MemberAt(members, sid)].status == Active
      ensures r.Ok? ==> r.value == MemberAt(members, sid)
      ensures r.Err? ==>
        r.error == if MemberAt(members, sid) == |members| then ActivationMemberMissing else MemberNotActive
    {
      var p := MemberAt(members, sid);
      if p == |members| {
        return Err(ActivationMemberMissing);
      }
      if members[p].status != Active {
        return Err(MemberNotActive);
      }
      r := Ok(p);
    }

    method CreateMemberAuth(member: nat, sid: StudentId, hash: string)
      modifies this`auth
      ensures auth == old(auth) + [Credential(member, sid, hash)]
    {
      auth := auth + [Credential(member, sid, hash)];
    }

    method UpdateMemberAuthPassword(row: nat, hash: string)
      requires row < |auth|
      modifies this`auth
      ensures auth == old(auth)[row := old(auth)[row].(hash := hash)]
    {
      auth := auth[row := auth[row].(hash := hash)];
    }

    /** Looks the credentials up by student, and inserts a row or overwrites its password. */
    method CreateOrUpdateMemberAuth(member: nat, sid: StudentId, hash: string)
      requires UniqueCredentials(auth)
      modifies this`auth
      ensures UniqueCredentials(auth) && CredentialsStay(old(auth), auth)
      ensures PasswordOf(auth, sid) == Some(hash)
      ensures forall other :: other != sid ==> PasswordOf(auth, other) == PasswordOf(old(auth), other)
      ensures |auth| == |old(auth)| + (if HasCredentials(old(auth), sid) then 0 else 1)
      ensures auth == WithPassword(old(auth), member, sid, hash)
      ensures PasswordStored(old(auth), auth, member, sid, hash)
    {
      StoredPassword(auth, member, sid, hash);
      StoreTells(auth, member, sid, hash);
      hide PasswordOf, UniqueCredentials, PasswordStored;
      var row := CredentialAt(auth, sid);
      if row == |auth| {
        CreateMemberAuth(member, sid, hash);
      } else {
        UpdateMemberAuthPassword(row, hash);
      }
    }

    method ChangeMemberPassword(sid: StudentId, verified: bool, hash: string) returns (error: Option<Error>)
      requires UniqueCredentials(auth)
      modifies this
      ensures UniqueCredentials(auth)
      ensures error == CheckChange(old(Contents()), sid, verified)
      ensures Contents() == if error.None? then StoreCredentials(old(Contents()), sid, hash) else old(Contents())
      ensures ChangeTold(old(Contents()), Contents(), error, sid, verified, hash)
    {
      ChangeTells(Contents(), sid, verified, hash);
      var row := CredentialAt(auth, sid);
      if row == |auth| {
        return Some(Unauthorized);
      }
      if !verified {
        return Some(LoginFailed);
      }
      UpdateMemberAuthPassword(row, hash);
      error := None;
    }

    /** With stops the worker ends after the first commit. */
    method ActivateMember(id: nat, sid: StudentId, hash: string, stops: bool) returns (r: Result<nat, Error>)
      requires UniqueCredentials(auth)
      modifies this
      ensures UniqueCredentials(auth)
      ensures r == Accepted(CheckActivation(old(Contents()), id, sid), id)
      ensures r.Err? ==> Contents() == old(Contents())
      ensures r.Ok? && stops ==> Contents() == StoreCredentials(old(Contents()), sid, hash)
      ensures r.Ok? && !stops ==> Contents() == MarkActivated(StoreCredentials(old(Contents()), sid, hash), id)
      ensures ActivateTold(old(Contents()), Contents(), r, id, sid, hash, stops)
    {
      hide ActivateTold, PasswordStored, WithPassword, PasswordOf, UniqueCredentials, CredentialsStay, MemberAt;
      ActivateTells(Contents(), id, sid, hash, stops);
      r := ResolveActivationSignupRequest(id, sid);
      if r.Err? {
        return;
      }
      var member := ResolveActivationMember(sid);
      if member.Err? {
        return Err(member.error);
      }
      CreateOrUpdateMemberAuth(member.value, sid, hash);
      if !stops {
        requests := requests[id := requests[id].(status := Activated)];
      }
    }
  }

  function Accepted(refused: Option<Error>, id: nat): Result<nat, Error> {
    match refused
    case Some(e) => Err(e)
    case None => Ok(id)
  }
}
