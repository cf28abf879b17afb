/**
 * The tournaments page (app/tournaments/page.js): the captain's own team, the capacity
 * line and status label of each tournament card, the button it shows and what a click
 * on that button does. `user` is whether someone is logged in, `isCaptain` the flag the
 * authentication hook derives from the captain list.
 */
module TournamentsPage {
  import opened Wrappers
  import opened Store
  import Auth
  import CaptainRoute

  /** A tournament as the page receives it; `registered` holds the `team.id` of each registration. */
  datatype Tournament = Tournament(id: nat, maxPlayers: int, playersPerTeam: int, registered: seq<nat>)

  datatype Label = Full | AlmostFull | Open  // 'Complet' | 'Presque complet' | 'Inscriptions ouvertes'

  datatype Button =
    | AlreadyRegistered  // 'Votre équipe est déjà inscrite à ce tournoi'
    | TournamentFull     // 'Tournoi complet'
    | RegisterButton     // 'Inscrire une équipe'
    | CaptainsOnly       // 'Seuls les capitaines d'équipe peuvent inscrire une équipe'
    | LoginLink          // link to '/login?redirect=/tournaments'

  datatype Navigation = ToLogin | Stay | ToRegister(tournamentId: nat)

  /** `isCaptain` in the authentication hook: the captain list is an array with an element. */
  function CaptainFlag(response: CaptainRoute.Response): (r: bool)
    ensures r <==> response.Teams? && response.teams != []
  {
    match response
      case Teams(teams) => |teams| > 0
      case _ => false
  }

  /** `fetchUserTeam`: the first team of a non-empty captain list, fetched only for a logged-in captain. */
  function UserTeam(user: bool, isCaptain: bool, response: CaptainRoute.Response): (r: Option<Team>)
    ensures r.Some? <==> user && isCaptain && response.Teams? && response.teams != []
    ensures r.Some? ==> r.value == response.teams[0]
  {
    if !user || !isCaptain then None
    else match response
      case Teams(teams) => if |teams| > 0 then Some(teams[0]) else None
      case _ => None
  }

  /** `registrations.some(...)` */
  function AnyRegistration(registered: seq<nat>, teamId: nat): (r: bool)
    ensures r <==> exists i :: 0 <= i < |registered| && registered[i] == teamId
  {
    if registered == [] then false
    else registered[0] == teamId || AnyRegistration(registered[1..], teamId)
  }

  function IsTeamRegistered(t: Tournament, userTeam: Option<Team>): (r: bool)
    ensures userTeam.None? ==> !r
    ensures userTeam.Some? ==> (r <==> userTeam.value.id in t.registered)
  {
    if userTeam.None? then false else AnyRegistration(t.registered, userTeam.value.id)
  }

  /** Places left; negative when more teams are registered than the maximum. */
  function Remaining(t: Tournament): (r: int)
    ensures r + |t.registered| == t.maxPlayers
  {
    t.maxPlayers - |t.registered|
  }

  /** The status label; `count >= max * 0.8` is written `5 * count >= 4 * max`. */
  function StatusLabel(t: Tournament): (r: Label)
    ensures r == Full <==> |t.registered| >= t.maxPlayers
    ensures r == AlmostFull <==> |t.registered| < t.maxPlayers && 5 * |t.registered| >= 4 * t.maxPlayers
    ensures r == Open <==> 5 * |t.registered| < 4 * t.maxPlayers
  {
    var count := |t.registered|;
    if count >= t.maxPlayers then Full
    else if 5 * count >= 4 * t.maxPlayers then AlmostFull
    else Open
  }

  /** 'Complet' is shown exactly when no place is left. */
  lemma FullMeansNoPlaceLeft(t: Tournament)
    ensures StatusLabel(t) == Full <==> Remaining(t) <= 0
  {
  }

  function ButtonFor(t: Tournament, user: bool, isCaptain: bool, userTeam: Option<Team>): (r: Button)
    ensures r == AlreadyRegistered <==> isCaptain && IsTeamRegistered(t, userTeam)
    ensures r == TournamentFull <==> isCaptain && !IsTeamRegistered(t, userTeam) && |t.registered| >= t.maxPlayers
    ensures r == RegisterButton <==> isCaptain && !IsTeamRegistered(t, userTeam) && |t.registered| < t.maxPlayers
    ensures r == CaptainsOnly <==> !isCaptain && user
    ensures r == LoginLink <==> !isCaptain && !user
  {
    if isCaptain then
      if IsTeamRegistered(t, userTeam) then AlreadyRegistered
      else if |t.registered| >= t.maxPlayers then TournamentFull
      else RegisterButton
    else if user then CaptainsOnly
    else LoginLink
  }

  /** A registered team sees its registration even on a full tournament, and the button only where a place is left. */
  lemma RegisteredTakesPrecedence(t: Tournament, user: bool, userTeam: Option<Team>)
    requires IsTeamRegistered(t, userTeam) && StatusLabel(t) == Full
    ensures ButtonFor(t, user, true, userTeam) == AlreadyRegistered
    ensures forall u: bool, c: bool :: ButtonFor(t, u, c, userTeam) != RegisterButton
  {
  }

  function HandleRegister(user: bool, isCaptain: bool, tournamentId: nat): (r: Navigation)
    ensures !user ==> r == ToLogin
    ensures user && !isCaptain ==> r == Stay
    ensures r.ToRegister? <==> user && isCaptain
    ensures r.ToRegister? ==> r.tournamentId == tournamentId
  {
    if !user then ToLogin
    else if !isCaptain then Stay
    else ToRegister(tournamentId)
  }

  /**
   * For a logged-in user, with the captain flag and the team taken from the same captain
   * list and no user captaining two teams, the page's team is the one team the user
   * captains, and there is none exactly when the user captains none.
   */
  lemma UserTeamIsCaptainedTeam(cookie: Option<string>, decode: string -> Option<nat>, s: Tables)
    requires forall i, j :: 0 <= i < j < |s.teams| ==> s.teams[i].captainId != s.teams[j].captainId
    requires cookie.Some? && Auth.VerifyAuth(cookie.value, decode, s.users).Some?
    ensures var uid := Auth.VerifyAuth(cookie.value, decode, s.users).value;
            var response := CaptainRoute.Get(cookie, decode, s);
            var team := UserTeam(true, CaptainFlag(response), response);
            && response.Teams? && |response.teams| <= 1
            && (team.Some? <==> exists i :: 0 <= i < |s.teams| && s.teams[i].captainId == uid)
            && (team.Some? ==> team.value in s.teams && team.value.captainId == uid)
  {
    var uid := Auth.VerifyAuth(cookie.value, decode, s.users).value;
    CaptainRoute.AtMostOneCaptainedTeam(s.teams, uid);
  }
}
