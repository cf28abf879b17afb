/**
 * The relational store the handlers talk to through Prisma, held in memory: one sequence
 * per table in insertion order, and one autoincrement counter per table whose rows get
 * a fresh id on insert. `FindFirst` and `Where` are Prisma's `findFirst` and `findMany`
 * with a `where` clause, reading the table in that order.
 */
module Store {
  import opened Wrappers

  datatype User = User(id: nat, pseudo: string, email: string, password: string,
                       role: string, avatar: Option<string>, createdAt: int)

  /** A user as the API hands it out: every stored field except the password hash. */
  datatype PublicUser = PublicUser(id: nat, pseudo: string, email: string,
                                   role: string, avatar: Option<string>, createdAt: int)

  datatype School = School(id: nat, name: string, city: string)

  datatype Team = Team(id: nat, name: string, schoolId: nat, captainId: nat,
                       logo: Option<seq<bv8>>, createdAt: int)

  datatype TeamMember = TeamMember(teamId: nat, userId: nat, role: string, joinedAt: int)

  datatype JoinRequest = JoinRequest(teamId: nat, userId: nat, status: string)

  datatype Match = Match(id: nat, tournamentId: nat, team1Id: nat, team2Id: nat,
                         status: string, winnerId: Option<nat>, scheduledTime: int)

  /** A snapshot of every table, as one request sees it. */
  datatype Tables = Tables(users: seq<User>, schools: seq<School>, teams: seq<Team>,
                           members: seq<TeamMember>, joinRequests: seq<JoinRequest>,
                           matches: seq<Match>)

  /** The password-stripped view of a stored user. */
  function Public(u: User): (p: PublicUser)
    ensures p.id == u.id && p.pseudo == u.pseudo && p.email == u.email
    ensures p.role == u.role && p.avatar == u.avatar && p.createdAt == u.createdAt
  {
    PublicUser(u.id, u.pseudo, u.email, u.role, u.avatar, u.createdAt)
  }

  /** `findFirst({ where })`: the first row, in table order, that satisfies `where`. */
  function FindFirst<T>(rows: seq<T>, where: T -> bool): (r: Option<T>)
    ensures r.Some? ==> where(r.value)
  {
    if rows == [] then None
    else if where(rows[0]) then Some(rows[0])
    else FindFirst(rows[1..], where)
  }

  /** `findFirst` finds nothing exactly when no row matches. */
  lemma {:induction false} FindFirstNone<T>(rows: seq<T>, where: T -> bool)
    ensures FindFirst(rows, where).None? <==> forall i :: 0 <= i < |rows| ==> !where(rows[i])
  {
    if rows != [] {
      FindFirstNone(rows[1..], where);
      assert forall i :: 1 <= i < |rows| ==> rows[i] == rows[1..][i - 1];
    }
  }

  /** What `findFirst` finds is a matching row with no matching row before it. */
  lemma {:induction false} FindFirstSome<T>(rows: seq<T>, where: T -> bool) returns (i: nat)
    requires FindFirst(rows, where).Some?
    ensures i < |rows| && rows[i] == FindFirst(rows, where).value && where(rows[i])
    ensures forall j :: 0 <= j < i ==> !where(rows[j])
  {
    if where(rows[0]) {
      i := 0;
    } else {
      var k := FindFirstSome(rows[1..], where);
      i := k + 1;
    }
  }

  /** Appending a row changes the first match only when nothing matched before. */
  lemma {:induction false} FindFirstAppend<T>(rows: seq<T>, x: T, where: T -> bool)
    ensures FindFirst(rows + [x], where) ==
            if FindFirst(rows, where).Some? then FindFirst(rows, where)
            else if where(x) then Some(x) else None
  {
    if rows != [] {
      assert (rows + [x])[1..] == rows[1..] + [x];
      FindFirstAppend(rows[1..], x, where);
    }
  }

  /** `findMany({ where })`: the rows that satisfy `where`, in table order. */
  function Where<T>(rows: seq<T>, where: T -> bool): (r: seq<T>)
    ensures |r| <= |rows|
    ensures forall i :: 0 <= i < |r| ==> r[i] in rows && where(r[i])
    ensures forall i :: 0 <= i < |rows| && where(rows[i]) ==> rows[i] in r
    ensures multiset(r) <= multiset(rows)
  {
    if rows == [] then []
    else
      assert rows == [rows[0]] + rows[1..];
      if where(rows[0]) then [rows[0]] + Where(rows[1..], where) else Where(rows[1..], where)
  }

  lemma {:induction false} WhereAppend<T>(rows: seq<T>, x: T, where: T -> bool)
    ensures Where(rows + [x], where) == Where(rows, where) + (if where(x) then [x] else [])
  {
    if rows != [] {
      assert (rows + [x])[1..] == rows[1..] + [x];
      WhereAppend(rows[1..], x, where);
    }
  }

  /** Primary keys: ids below the table's counter and pairwise distinct. */
  predicate Keyed(ids: seq<nat>, next: nat) {
    && (forall i :: 0 <= i < |ids| ==> ids[i] < next)
    && (forall i, j :: 0 <= i < j < |ids| ==> ids[i] != ids[j])
  }

  /** Inserting the counter's value as the next id keeps the keys distinct and below the bumped counter. */
  lemma KeyedAppend(ids: seq<nat>, next: nat)
    requires Keyed(ids, next)
    ensures Keyed(ids + [next], next + 1)
  {
  }

  /** The primary-key column of a table, read through `id`. */
  function Ids<T>(rows: seq<T>, id: T -> nat): (r: seq<nat>)
    ensures |r| == |rows| && forall i :: 0 <= i < |rows| ==> r[i] == id(rows[i])
  {
    seq(|rows|, i requires 0 <= i < |rows| => id(rows[i]))
  }

  function UserId(u: User): nat { u.id }
  function SchoolId(s: School): nat { s.id }
  function TeamId(t: Team): nat { t.id }

  /** User `uid` captains team `t` or has a member row in it. */
  predicate Affiliated(t: Team, members: seq<TeamMember>, uid: nat) {
    t.captainId == uid || exists k :: 0 <= k < |members| && members[k].teamId == t.id && members[k].userId == uid
  }

  /**
   * What the team-creation handler keeps true when it is the only way teams and member
   * rows come into being: no user captains two teams, no user has two member rows, and
   * every captain has a member row in the team it captains.
   */
  predicate OneTeamPerUser(teams: seq<Team>, members: seq<TeamMember>) {
    && (forall i, j :: 0 <= i < j < |teams| ==> teams[i].captainId != teams[j].captainId)
    && (forall i, j :: 0 <= i < j < |members| ==> members[i].userId != members[j].userId)
    && (forall i :: 0 <= i < |teams| ==>
          exists k :: 0 <= k < |members| && members[k].teamId == teams[i].id && members[k].userId == teams[i].captainId)
  }

  /** Under that invariant, a user is affiliated with at most one team. */
  lemma AtMostOneTeam(teams: seq<Team>, members: seq<TeamMember>, uid: nat, i: nat, j: nat)
    requires forall a, b :: 0 <= a < b < |teams| ==> teams[a].id != teams[b].id
    requires OneTeamPerUser(teams, members)
    requires i < |teams| && j < |teams|
    requires Affiliated(teams[i], members, uid) && Affiliated(teams[j], members, uid)
    ensures i == j
  {
    var ki :| 0 <= ki < |members| && members[ki].teamId == teams[i].id && members[ki].userId == uid;
    var kj :| 0 <= kj < |members| && members[kj].teamId == teams[j].id && members[kj].userId == uid;
    assert ki == kj;
  }

  class Db {
    var users: seq<User>
    var schools: seq<School>
    var teams: seq<Team>
    var members: seq<TeamMember>
    var joinRequests: seq<JoinRequest>
    var matches: seq<Match>
    var nextUserId: nat
    var nextSchoolId: nat
    var nextTeamId: nat

    ghost predicate Valid()
      reads this
    {
      && Keyed(Ids(users, UserId), nextUserId)
      && Keyed(Ids(schools, SchoolId), nextSchoolId)
      && Keyed(Ids(teams, TeamId), nextTeamId)
    }

    function State(): (s: Tables)
      reads this
      ensures s.users == users && s.schools == schools && s.teams == teams
      ensures s.members == members && s.joinRequests == joinRequests && s.matches == matches
    {
      Tables(users, schools, teams, members, joinRequests, matches)
    }

    /** `prisma.user.create`: appends a user under the next autoincrement id. */
    method CreateUser(pseudo: string, email: string, password: string, role: string, now: int)
      returns (user: User)
      requires Valid()
      modifies this
      ensures Valid()
      ensures user == User(old(nextUserId), pseudo, email, password, role, None, now)
      ensures users == old(users) + [user]
      ensures schools == old(schools) && teams == old(teams) && members == old(members)
      ensures joinRequests == old(joinRequests) && matches == old(matches)
      ensures nextUserId == old(nextUserId) + 1
      ensures nextSchoolId == old(nextSchoolId) && nextTeamId == old(nextTeamId)
    {
      user := User(nextUserId, pseudo, email, password, role, None, now);
      assert Ids(users + [user], UserId) == Ids(users, UserId) + [user.id];
      KeyedAppend(Ids(users, UserId), nextUserId);
      users := users + [user];
      nextUserId := nextUserId + 1;
    }

    /** `prisma.school.create`: appends a school under the next autoincrement id. */
    method CreateSchool(name: string, city: string) returns (school: School)
      requires Valid()
      modifies this
      ensures Valid()
      ensures school == School(old(nextSchoolId), name, city)
      ensures schools == old(schools) + [school]
      ensures users == old(users) && teams == old(teams) && members == old(members)
      ensures joinRequests == old(joinRequests) && matches == old(matches)
      ensures nextSchoolId == old(nextSchoolId) + 1
      ensures nextUserId == old(nextUserId) && nextTeamId == old(nextTeamId)
    {
      school := School(nextSchoolId, name, city);
      assert Ids(schools + [school], SchoolId) == Ids(schools, SchoolId) + [school.id];
      KeyedAppend(Ids(schools, SchoolId), nextSchoolId);
      schools := schools + [school];
      nextSchoolId := nextSchoolId + 1;
    }

    /** `prisma.team.create`: appends a team under the next autoincrement id. */
    method CreateTeam(name: string, schoolId: nat, captainId: nat, logo: Option<seq<bv8>>, now: int)
      returns (team: Team)
      requires Valid()
      modifies this
      ensures Valid()
      ensures team == Team(old(nextTeamId), name, schoolId, captainId, logo, now)
      ensures forall i :: 0 <= i < |old(teams)| ==> old(teams)[i].id != team.id
      ensures teams == old(teams) + [team]
      ensures users == old(users) && schools == old(schools) && members == old(members)
      ensures joinRequests == old(joinRequests) && matches == old(matches)
      ensures nextTeamId == old(nextTeamId) + 1
      ensures nextUserId == old(nextUserId) && nextSchoolId == old(nextSchoolId)
    {
      team := Team(nextTeamId, name, schoolId, captainId, logo, now);
      assert Ids(teams + [team], TeamId) == Ids(teams, TeamId) + [team.id];
      KeyedAppend(Ids(teams, TeamId), nextTeamId);
      teams := teams + [team];
      nextTeamId := nextTeamId + 1;
    }

    /** `prisma.teamMember.create`: appends a member row. */
    method CreateTeamMember(m: TeamMember)
      requires Valid()
      modifies this`members
      ensures Valid()
      ensures members == old(members) + [m]
      ensures nextUserId == old(nextUserId) && nextSchoolId == old(nextSchoolId) && nextTeamId == old(nextTeamId)
    {
      members := members + [m];
    }

    constructor Empty()
      ensures Valid()
      ensures users == [] && schools == [] && teams == [] && members == []
      ensures joinRequests == [] && matches == []
    {
      users, schools, teams, members, joinRequests, matches := [], [], [], [], [], [];
      nextUserId, nextSchoolId, nextTeamId := 1, 1, 1;
    }
  }
}
