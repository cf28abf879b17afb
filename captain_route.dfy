/**
 * GET /api/teams/captain (app/api/teams/captain/route.js): the teams whose captain is the
 * authenticated user, behind two guards on the `token` cookie. It only reads the store.
 */
module CaptainRoute {
  import opened Wrappers
  import opened Store
  import Auth
  import TeamsRoute

  datatype Response =
    | Teams(teams: seq<Team>)  // 200
    | NotAuthorized            // 401 'Non autorisé': no cookie
    | InvalidToken             // 401 'Token invalide': verifyAuth gave null

  /** `findMany({ where: { captain_id } })` */
  function CaptainedBy(teams: seq<Team>, uid: nat): (r: seq<Team>)
    ensures forall i :: 0 <= i < |r| ==> r[i] in teams && r[i].captainId == uid
    ensures forall i :: 0 <= i < |teams| && teams[i].captainId == uid ==> teams[i] in r
  {
    Where(teams, (t: Team) => t.captainId == uid)
  }

  function Get(cookie: Option<string>, decode: string -> Option<nat>, s: Tables): (r: Response)
    ensures r == NotAuthorized <==> cookie.None?
    ensures cookie.Some? ==> (r == InvalidToken <==> Auth.VerifyAuth(cookie.value, decode, s.users).None?)
    ensures cookie.Some? && Auth.VerifyAuth(cookie.value, decode, s.users).Some? ==> r.Teams?
    ensures r.Teams? ==>
      && cookie.Some? && Auth.VerifyAuth(cookie.value, decode, s.users).Some?
      && var uid := Auth.VerifyAuth(cookie.value, decode, s.users).value;
      && (forall i :: 0 <= i < |r.teams| ==> r.teams[i] in s.teams && r.teams[i].captainId == uid)
      && (forall i :: 0 <= i < |s.teams| && s.teams[i].captainId == uid ==> s.teams[i] in r.teams)
  {
    if cookie.None? then NotAuthorized
    else match Auth.VerifyAuth(cookie.value, decode, s.users)
      case None => InvalidToken
      case Some(uid) => Teams(CaptainedBy(s.teams, uid))
  }

  lemma {:induction false} NoCaptainNoTeams(teams: seq<Team>, uid: nat)
    requires forall i :: 0 <= i < |teams| ==> teams[i].captainId != uid
    ensures CaptainedBy(teams, uid) == []
  {
    if teams != [] {
      NoCaptainNoTeams(teams[1..], uid);
    }
  }

  /** When no user captains two teams, the captain list has at most one entry. */
  lemma {:induction false} AtMostOneCaptainedTeam(teams: seq<Team>, uid: nat)
    requires forall i, j :: 0 <= i < j < |teams| ==> teams[i].captainId != teams[j].captainId
    ensures |CaptainedBy(teams, uid)| <= 1
  {
    if teams != [] {
      if teams[0].captainId == uid {
        NoCaptainNoTeams(teams[1..], uid);
      } else {
        AtMostOneCaptainedTeam(teams[1..], uid);
      }
    }
  }

  /** Right after a user creates a team, their captain list is exactly that team. */
  lemma CaptainSeesCreatedTeam(cookie: Option<string>, decode: string -> Option<nat>, form: TeamsRoute.TeamForm,
                               s: Tables, id: nat, now: int)
    requires TeamsRoute.Guard(cookie, decode, form, s).Accept?
    ensures var v := TeamsRoute.Guard(cookie, decode, form, s);
            var t := Team(id, v.name, v.schoolId, v.userId, v.logo, now);
            var m := TeamMember(id, v.userId, "captain", now);
            Get(cookie, decode, s.(teams := s.teams + [t], members := s.members + [m])) == Teams([t])
  {
    var v := TeamsRoute.Guard(cookie, decode, form, s);
    var t := Team(id, v.name, v.schoolId, v.userId, v.logo, now);
    TeamsRoute.CaptaincyOfNone(s.teams, v.userId);
    NoCaptainNoTeams(s.teams, v.userId);
    WhereAppend(s.teams, t, (x: Team) => x.captainId == v.userId);
  }
}
