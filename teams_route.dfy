/**
 * Team creation (app/api/teams/route.js): `isValidLogo` and the POST handler. The handler
 * runs a fixed chain of checks against the store and, when all pass, inserts the team and
 * then the creator as a member with role "captain".
 */
module TeamsRoute {
  import opened Wrappers
  import opened Text
  import opened Store
  import opened Auth

  const ValidExtensions: seq<string> := [".jpg", ".jpeg", ".png", ".webp"]

  /** `isValidLogo`: an empty name passes; otherwise the lower-cased suffix from the last '.' must be accepted. */
  function IsValidLogo(name: string): (ok: bool)
    ensures name == "" ==> ok
  {
    if name == "" then true
    else ToLower(SubstringFrom(name, LastIndexOf(name, '.'))) in ValidExtensions
  }

  /**
   * A non-empty logo name is accepted exactly when it has a '.' whose suffix, lower-cased,
   * is one of the four extensions; so a name without any '.' is refused.
   */
  lemma LogoNameRule(name: string)
    requires name != ""
    ensures IsValidLogo(name) <==>
              exists k :: 0 <= k < |name| && name[k] == '.'
                          && (forall j :: k < j < |name| ==> name[j] != '.')
                          && ToLower(name[k..]) in ValidExtensions
    ensures !Contains(name, '.') ==> !IsValidLogo(name)
  {
    var dot := LastIndexOf(name, '.');
    if dot == -1 {
      var lowered := ToLower(name);
      assert lowered[0] == LowerChar(name[0]) != '.';
      assert lowered !in ValidExtensions by {
        forall e | e in ValidExtensions ensures e[0] == '.' { }
      }
    } else {
      assert IsValidLogo(name) == (ToLower(name[dot..]) in ValidExtensions);
      forall k | 0 <= k < |name| && name[k] == '.' && (forall j :: k < j < |name| ==> name[j] != '.')
        ensures k == dot
      {
      }
    }
  }

  datatype LogoFile = LogoFile(name: string, bytes: seq<bv8>)

  /** The multipart form: `name`, `school_id` (already read as a number) and an optional file. */
  datatype TeamForm = TeamForm(name: Option<string>, schoolId: Option<nat>, logo: Option<LogoFile>)

  datatype Rejection =
    | Unauthorized                          // 401 'Non autorisé'
    | MissingFields                         // 400: name and school are required
    | InvalidLogo                           // 400: unsupported logo format
    | AlreadyMember(teamId: nat)            // 400: already a member of a team (the team of the row found)
    | AlreadyCaptain(team: Team)            // 400: already captain of a team
    | PendingRequest                        // 400: a join request is pending
    | TeamInSchool(team: Team)              // 400: already has a team in this school

  datatype Verdict =
    | Reject(why: Rejection)
    | Accept(userId: nat, name: string, schoolId: nat, logo: Option<seq<bv8>>)

  datatype Response =
    | Created(team: Team)   // 201
    | Rejected(why: Rejection)
    | Failed                // 500: the insert was refused by the store

  function Status(r: Response): (code: int)
    ensures r.Created? <==> code == 201
    ensures r.Rejected? ==> (code == 401 <==> r.why == Unauthorized)
    ensures r.Rejected? && r.why != Unauthorized ==> code == 400
    ensures r.Failed? <==> code == 500
  {
    match r
    case Created(_) => 201
    case Rejected(why) => if why == Unauthorized then 401 else 400
    case Failed => 500
  }

  function MembershipOf(members: seq<TeamMember>, uid: nat): Option<TeamMember> {
    FindFirst(members, (m: TeamMember) => m.userId == uid)
  }

  lemma MembershipOfNone(members: seq<TeamMember>, uid: nat)
    ensures MembershipOf(members, uid).None? <==> forall k :: 0 <= k < |members| ==> members[k].userId != uid
  {
    FindFirstNone(members, (m: TeamMember) => m.userId == uid);
  }

  function CaptaincyOf(teams: seq<Team>, uid: nat): Option<Team> {
    FindFirst(teams, (t: Team) => t.captainId == uid)
  }

  lemma CaptaincyOfNone(teams: seq<Team>, uid: nat)
    ensures CaptaincyOf(teams, uid).None? <==> forall k :: 0 <= k < |teams| ==> teams[k].captainId != uid
  {
    FindFirstNone(teams, (t: Team) => t.captainId == uid);
  }

  function PendingOf(requests: seq<JoinRequest>, uid: nat): Option<JoinRequest> {
    FindFirst(requests, (q: JoinRequest) => q.userId == uid && q.status == "pending")
  }

  lemma PendingOfNone(requests: seq<JoinRequest>, uid: nat)
    ensures PendingOf(requests, uid).None? <==>
            forall k :: 0 <= k < |requests| ==> !(requests[k].userId == uid && requests[k].status == "pending")
  {
    FindFirstNone(requests, (q: JoinRequest) => q.userId == uid && q.status == "pending");
  }

  function TeamInSchoolOf(teams: seq<Team>, members: seq<TeamMember>, sid: nat, uid: nat): Option<Team> {
    FindFirst(teams, (t: Team) => t.schoolId == sid && Affiliated(t, members, uid))
  }

  lemma TeamInSchoolOfNone(teams: seq<Team>, members: seq<TeamMember>, sid: nat, uid: nat)
    ensures TeamInSchoolOf(teams, members, sid, uid).None? <==>
            forall k :: 0 <= k < |teams| ==> !(teams[k].schoolId == sid && Affiliated(teams[k], members, uid))
  {
    FindFirstNone(teams, (t: Team) => t.schoolId == sid && Affiliated(t, members, uid));
  }

  function LogoData(logo: Option<LogoFile>): Option<seq<bv8>> {
    if logo.Some? then Some(logo.value.bytes) else None
  }

  /** The handler's checks, in the order it runs them; the first that fails decides. */
  function Guard(cookie: Option<string>, decode: string -> Option<nat>, form: TeamForm, s: Tables): (v: Verdict)
    ensures CookieUser(cookie, decode, s.users).None? <==> v == Reject(Unauthorized)
    ensures v.Accept? ==>
              && CookieUser(cookie, decode, s.users) == Some(v.userId)
              && form.name == Some(v.name) && v.name != "" && form.schoolId == Some(v.schoolId)
              && (form.logo.Some? ==> IsValidLogo(form.logo.value.name))
              && v.logo == LogoData(form.logo)
  {
    match CookieUser(cookie, decode, s.users)
    case None => Reject(Unauthorized)
    case Some(uid) =>
      if !Truthy(form.name) || form.schoolId.None? then Reject(MissingFields)
      else if form.logo.Some? && !IsValidLogo(form.logo.value.name) then Reject(InvalidLogo)
      else if MembershipOf(s.members, uid).Some? then Reject(AlreadyMember(MembershipOf(s.members, uid).value.teamId))
      else if CaptaincyOf(s.teams, uid).Some? then Reject(AlreadyCaptain(CaptaincyOf(s.teams, uid).value))
      else if PendingOf(s.joinRequests, uid).Some? then Reject(PendingRequest)
      else if TeamInSchoolOf(s.teams, s.members, form.schoolId.value, uid).Some? then
        Reject(TeamInSchool(TeamInSchoolOf(s.teams, s.members, form.schoolId.value, uid).value))
      else Accept(uid, form.name.value, form.schoolId.value, LogoData(form.logo))
  }

  predicate FormComplete(form: TeamForm) {
    Truthy(form.name) && form.schoolId.Some?
  }

  predicate LogoAccepted(form: TeamForm) {
    form.logo.None? || IsValidLogo(form.logo.value.name)
  }

  predicate HasMemberRow(members: seq<TeamMember>, uid: nat) {
    exists k :: 0 <= k < |members| && members[k].userId == uid
  }

  predicate IsCaptain(teams: seq<Team>, uid: nat) {
    exists k :: 0 <= k < |teams| && teams[k].captainId == uid
  }

  predicate HasPendingRequest(requests: seq<JoinRequest>, uid: nat) {
    exists k :: 0 <= k < |requests| && requests[k].userId == uid && requests[k].status == "pending"
  }

  /**
   * The checks run in a fixed order and the first failing one decides: authentication,
   * then the required fields, the logo, an existing membership, an existing captaincy and
   * a pending join request; a caller who passes them all is accepted.
   */
  lemma ChecksRunInOrder(cookie: Option<string>, decode: string -> Option<nat>, form: TeamForm, s: Tables)
    ensures CookieUser(cookie, decode, s.users).None? ==> Guard(cookie, decode, form, s) == Reject(Unauthorized)
    ensures CookieUser(cookie, decode, s.users).Some? ==>
      var uid := CookieUser(cookie, decode, s.users).value;
      var v := Guard(cookie, decode, form, s);
      && (!FormComplete(form) ==> v == Reject(MissingFields))
      && (FormComplete(form) && !LogoAccepted(form) ==> v == Reject(InvalidLogo))
      && (FormComplete(form) && LogoAccepted(form) && HasMemberRow(s.members, uid) ==>
            v.Reject? && v.why.AlreadyMember? &&
            exists k :: 0 <= k < |s.members| && s.members[k].userId == uid && s.members[k].teamId == v.why.teamId)
      && (FormComplete(form) && LogoAccepted(form) && !HasMemberRow(s.members, uid) && IsCaptain(s.teams, uid) ==>
            v.Reject? && v.why.AlreadyCaptain? && v.why.team in s.teams && v.why.team.captainId == uid)
      && ((FormComplete(form) && LogoAccepted(form) && !HasMemberRow(s.members, uid) && !IsCaptain(s.teams, uid)
            && HasPendingRequest(s.joinRequests, uid)) ==> v == Reject(PendingRequest))
      && ((FormComplete(form) && LogoAccepted(form) && !HasMemberRow(s.members, uid) && !IsCaptain(s.teams, uid)
            && !HasPendingRequest(s.joinRequests, uid)) ==>
            v == Accept(uid, form.name.value, form.schoolId.value, LogoData(form.logo)))
  {
    var user := CookieUser(cookie, decode, s.users);
    if user.Some? && FormComplete(form) && LogoAccepted(form) {
      var uid := user.value;
      MembershipOfNone(s.members, uid);
      CaptaincyOfNone(s.teams, uid);
      PendingOfNone(s.joinRequests, uid);
      TeamInSchoolOfNone(s.teams, s.members, form.schoolId.value, uid);
      if MembershipOf(s.members, uid).Some? {
        var i := FindFirstSome(s.members, (m: TeamMember) => m.userId == uid);
      } else if CaptaincyOf(s.teams, uid).Some? {
        var i := FindFirstSome(s.teams, (t: Team) => t.captainId == uid);
      }
    }
  }

  /** The same-school check can never reject: whoever reaches it captains no team and has no member row. */
  lemma SameSchoolCheckNeverFires(cookie: Option<string>, decode: string -> Option<nat>, form: TeamForm, s: Tables)
    ensures !(Guard(cookie, decode, form, s).Reject? && Guard(cookie, decode, form, s).why.TeamInSchool?)
  {
    var user := CookieUser(cookie, decode, s.users);
    if user.Some? && FormComplete(form) && LogoAccepted(form)
       && MembershipOf(s.members, user.value).None? && CaptaincyOf(s.teams, user.value).None? {
      MembershipOfNone(s.members, user.value);
      CaptaincyOfNone(s.teams, user.value);
      TeamInSchoolOfNone(s.teams, s.members, form.schoolId.value, user.value);
    }
  }

  /** A user with a pending join request, to any team, cannot create a team. */
  lemma PendingRequestBlocksCreation(cookie: Option<string>, decode: string -> Option<nat>, form: TeamForm,
                                     s: Tables, uid: nat)
    requires CookieUser(cookie, decode, s.users) == Some(uid)
    requires HasPendingRequest(s.joinRequests, uid)
    ensures Guard(cookie, decode, form, s).Reject?
  {
    PendingOfNone(s.joinRequests, uid);
  }

  /**
   * The pending check compares the status with 'pending' exactly: join requests whose
   * status is spelled 'PENDING' do not stop a user who passes every other check.
   */
  lemma UppercasePendingDoesNotBlock(cookie: Option<string>, decode: string -> Option<nat>, form: TeamForm,
                                     s: Tables, uid: nat)
    requires CookieUser(cookie, decode, s.users) == Some(uid)
    requires FormComplete(form) && LogoAccepted(form)
    requires !HasMemberRow(s.members, uid) && !IsCaptain(s.teams, uid)
    requires forall k :: 0 <= k < |s.joinRequests| && s.joinRequests[k].userId == uid ==>
               s.joinRequests[k].status == "PENDING"
    ensures Guard(cookie, decode, form, s) == Accept(uid, form.name.value, form.schoolId.value, LogoData(form.logo))
  {
    ChecksRunInOrder(cookie, decode, form, s);
  }

  /**
   * After a successful creation (the new team and the captain's member row appended), the
   * same user's next well-formed request is refused by the membership check, which runs
   * before the captaincy check.
   */
  lemma SecondCreationFailsAsMember(cookie: Option<string>, decode: string -> Option<nat>, form: TeamForm,
                                    s: Tables, id: nat, now: int,
                                    cookie2: Option<string>, decode2: string -> Option<nat>, form2: TeamForm)
    requires Guard(cookie, decode, form, s).Accept?
    requires var v := Guard(cookie, decode, form, s);
             CookieUser(cookie2, decode2, s.users) == Some(v.userId) && FormComplete(form2) && LogoAccepted(form2)
    ensures var v := Guard(cookie, decode, form, s);
            var t := Team(id, v.name, v.schoolId, v.userId, v.logo, now);
            var m := TeamMember(id, v.userId, "captain", now);
            Guard(cookie2, decode2, form2, s.(teams := s.teams + [t], members := s.members + [m]))
              == Reject(AlreadyMember(id))
  {
    var v := Guard(cookie, decode, form, s);
    var m := TeamMember(id, v.userId, "captain", now);
    FindFirstAppend(s.members, m, (x: TeamMember) => x.userId == v.userId);
  }


  predicate SchoolExists(schools: seq<School>, sid: nat) {
    FindFirst(schools, (c: School) => c.id == sid).Some?
  }

  /** Appending a new team and its captain's member row keeps every user on at most one team. */
  lemma CreationKeepsOneTeamPerUser(teams: seq<Team>, members: seq<TeamMember>, t: Team, m: TeamMember)
    requires OneTeamPerUser(teams, members)
    requires forall k :: 0 <= k < |members| ==> members[k].userId != t.captainId
    requires forall k :: 0 <= k < |teams| ==> teams[k].captainId != t.captainId
    requires m.teamId == t.id && m.userId == t.captainId
    ensures OneTeamPerUser(teams + [t], members + [m])
  {
    var teams', members' := teams + [t], members + [m];
    forall i | 0 <= i < |teams'|
      ensures exists k :: 0 <= k < |members'| && members'[k].teamId == teams'[i].id && members'[k].userId == teams'[i].captainId
    {
      if i == |teams| {
        assert members'[|members|] == m;
      } else {
        assert teams'[i] == teams[i];
        var k :| 0 <= k < |members| && members[k].teamId == teams[i].id && members[k].userId == teams[i].captainId;
        assert members'[k] == members[k];
      }
    }
    assert forall i, j :: 0 <= i < j < |members'| ==> members'[i].userId != members'[j].userId;
    assert forall i, j :: 0 <= i < j < |teams'| ==> teams'[i].captainId != teams'[j].captainId;
  }

  /**
   * POST /api/teams. On a rejection nothing is written; on success exactly one team (with a
   * fresh id and the caller as captain) and exactly one member row are appended.
   */
  method Post(db: Db, cookie: Option<string>, decode: string -> Option<nat>, form: TeamForm, now: int)
    returns (r: Response)
    requires db.Valid()
    modifies db
    ensures db.Valid()
    ensures var v := Guard(cookie, decode, form, old(db.State()));
      && (v.Reject? ==> r == Rejected(v.why) && db.teams == old(db.teams) && db.members == old(db.members))
      && (v.Accept? && !SchoolExists(old(db.schools), v.schoolId) ==>
            r == Failed && db.teams == old(db.teams) && db.members == old(db.members))
      && (v.Accept? && SchoolExists(old(db.schools), v.schoolId) ==>
            && r == Created(Team(old(db.nextTeamId), v.name, v.schoolId, v.userId, v.logo, now))
            && db.teams == old(db.teams) + [r.team]
            && db.members == old(db.members) + [TeamMember(r.team.id, v.userId, "captain", now)])
    ensures r.Created? ==> forall i :: 0 <= i < |old(db.teams)| ==> old(db.teams)[i].id != r.team.id
    ensures db.users == old(db.users) && db.schools == old(db.schools)
    ensures db.joinRequests == old(db.joinRequests) && db.matches == old(db.matches)
    ensures old(OneTeamPerUser(db.teams, db.members)) ==> OneTeamPerUser(db.teams, db.members)
  {
    ghost var v := Guard(cookie, decode, form, db.State());
    if cookie.None? {
      return Rejected(Unauthorized);
    }
    var user := Auth.VerifyAuth(cookie.value, decode, db.users);
    if user.None? {
      return Rejected(Unauthorized);
    }
    var uid := user.value;
    if !Truthy(form.name) || form.schoolId.None? {
      return Rejected(MissingFields);
    }
    if form.logo.Some? && !IsValidLogo(form.logo.value.name) {
      return Rejected(InvalidLogo);
    }
    var logoData := LogoData(form.logo);
    var existingMembership := MembershipOf(db.members, uid);
    if existingMembership.Some? {
      return Rejected(AlreadyMember(existingMembership.value.teamId));
    }
    var existingCaptaincy := CaptaincyOf(db.teams, uid);
    if existingCaptaincy.Some? {
      return Rejected(AlreadyCaptain(existingCaptaincy.value));
    }
    var pendingRequest := PendingOf(db.joinRequests, uid);
    if pendingRequest.Some? {
      return Rejected(PendingRequest);
    }
    var sid := form.schoolId.value;
    var existingTeamInSchool := TeamInSchoolOf(db.teams, db.members, sid, uid);
    if existingTeamInSchool.Some? {
      return Rejected(TeamInSchool(existingTeamInSchool.value));
    }
    assert v == Accept(uid, form.name.value, sid, logoData);
    // The team's school_id is a foreign key: the insert fails for an unknown school.
    if !SchoolExists(db.schools, sid) {
      return Failed;
    }
    if OneTeamPerUser(db.teams, db.members) {
      MembershipOfNone(db.members, uid);
      CaptaincyOfNone(db.teams, uid);
      CreationKeepsOneTeamPerUser(db.teams, db.members, Team(db.nextTeamId, form.name.value, sid, uid, logoData, now),
                                  TeamMember(db.nextTeamId, uid, "captain", now));
    }
    var team := db.CreateTeam(form.name.value, sid, uid, logoData, now);
    db.CreateTeamMember(TeamMember(team.id, uid, "captain", now));
    r := Created(team);
  }
}
