/**
 * The teams page (app/teams/page.js): it loads the list served by GET /api/teams, looks
 * up the logged-in user's own team and picks the header shown above the list. `user`
 * is the logged-in user's id, if any.
 */
module TeamsPage {
  import opened Wrappers
  import opened Text
  import opened Store

  /** A team as GET /api/teams serves it: `captain?.id` and each member's `user?.id`. */
  datatype TeamCard = TeamCard(id: nat, name: string, captainId: Option<nat>, memberUserIds: seq<Option<nat>>)

  /** The response: its `ok` flag and the `teams` and `error` fields of its body. */
  datatype Fetched = Fetched(ok: bool, teams: Option<seq<TeamCard>>, error: Option<string>)

  datatype PageState = PageState(teams: seq<TeamCard>, userTeam: Option<TeamCard>, error: Option<string>)

  datatype Header =
    | CreateLink            // 'Créer une équipe'
    | MemberOf(team: string) // 'Vous appartenez déjà à l'équipe ...'
    | LoginLink             // 'Connectez-vous pour créer une équipe'

  datatype View = ErrorView(message: string) | Listing(header: Header, teams: seq<TeamCard>)

  const DefaultError := "Erreur lors de la récupération des équipes"

  /** The TypeError `data.teams.find` raises when `teams` is missing, as V8 words it. */
  const MissingTeamsError := "Cannot read properties of undefined (reading 'find')"

  /** The `useState` initial values. */
  const Initial := PageState([], None, None)

  /** The `find` callback: the user captains the team or is one of its members. */
  function BelongsTo(uid: nat): TeamCard -> bool {
    (c: TeamCard) => c.captainId == Some(uid) || Some(uid) in c.memberUserIds
  }

  /** `data.teams.find(...)`: the first team the user belongs to. */
  function FindUserTeam(teams: seq<TeamCard>, uid: nat): (r: Option<TeamCard>)
    ensures r.Some? ==> r.value.captainId == Some(uid) || Some(uid) in r.value.memberUserIds
    ensures r.None? <==> forall i :: 0 <= i < |teams| ==> !BelongsTo(uid)(teams[i])
  {
    FindFirstNone(teams, BelongsTo(uid));
    FindFirst(teams, BelongsTo(uid))
  }

  /** `fetchTeams`, starting from the initial state. */
  function Load(response: Fetched, user: Option<nat>): (r: PageState)
    ensures !response.ok ==> r == Initial.(error := Some(if Truthy(response.error) then response.error.value else DefaultError))
    ensures response.ok ==> r.teams == (if response.teams.Some? then response.teams.value else [])
    ensures user.None? ==> r.userTeam.None?
    ensures r.error.None? <==> response.ok && (user.None? || response.teams.Some?)
    ensures response.ok && user.Some? && response.teams.None? ==> r.error == Some(MissingTeamsError)
    ensures response.ok && user.Some? && response.teams.Some? ==>
              r.userTeam == FindUserTeam(response.teams.value, user.value)
  {
    if !response.ok then
      Initial.(error := Some(if Truthy(response.error) then response.error.value else DefaultError))
    else
      var teams := if response.teams.Some? then response.teams.value else [];
      if user.None? then Initial.(teams := teams)
      else if response.teams.None? then Initial.(teams := teams, error := Some(MissingTeamsError))
      else Initial.(teams := teams, userTeam := FindUserTeam(response.teams.value, user.value))
  }

  function Render(state: PageState, user: Option<nat>): (r: View)
    ensures state.error.Some? ==> r == ErrorView(state.error.value)
    ensures state.error.None? ==> r.Listing? && r.teams == state.teams
    ensures r.Listing? ==> (r.header == CreateLink <==> user.Some? && state.userTeam.None?)
    ensures r.Listing? ==> (r.header == LoginLink <==> user.None? && state.userTeam.None?)
    ensures r.Listing? && state.userTeam.Some? ==> r.header == MemberOf(state.userTeam.value.name)
  {
    if state.error.Some? then ErrorView(state.error.value)
    else if user.Some? && state.userTeam.None? then Listing(CreateLink, state.teams)
    else if state.userTeam.Some? then Listing(MemberOf(state.userTeam.value.name), state.teams)
    else Listing(LoginLink, state.teams)
  }

  /** A visitor who is not logged in always gets the login link, whatever the list holds. */
  lemma VisitorSeesLoginLink(response: Fetched)
    requires response.ok
    ensures Render(Load(response, None), None) == Listing(LoginLink, Load(response, None).teams)
  {
  }

  /** The `user?.id` of each member row of a team. */
  function MemberUserIds(members: seq<TeamMember>, teamId: nat): (r: seq<Option<nat>>)
    ensures forall uid :: Some(uid) in r <==> exists k :: 0 <= k < |members| && members[k].teamId == teamId && members[k].userId == uid
  {
    if members == [] then []
    else
      var rest := MemberUserIds(members[1..], teamId);
      assert forall k :: 1 <= k < |members| ==> members[k] == members[1..][k - 1];
      if members[0].teamId == teamId then [Some(members[0].userId)] + rest else rest
  }

  /** The cards GET /api/teams serves for the stored teams, captain and members included. */
  function Cards(teams: seq<Team>, members: seq<TeamMember>): (r: seq<TeamCard>)
    ensures |r| == |teams|
    ensures forall i :: 0 <= i < |r| ==>
              r[i] == TeamCard(teams[i].id, teams[i].name, Some(teams[i].captainId), MemberUserIds(members, teams[i].id))
  {
    if teams == [] then []
    else [TeamCard(teams[0].id, teams[0].name, Some(teams[0].captainId), MemberUserIds(members, teams[0].id))]
         + Cards(teams[1..], members)
  }

  /**
   * With the store kept by the team-creation handler, the page's team for a user is the
   * card of the one team the user captains or belongs to, and nothing when there is none.
   */
  lemma UserTeamIsAffiliatedTeam(teams: seq<Team>, members: seq<TeamMember>, uid: nat)
    requires forall a, b :: 0 <= a < b < |teams| ==> teams[a].id != teams[b].id
    requires OneTeamPerUser(teams, members)
    ensures forall i :: 0 <= i < |teams| && Affiliated(teams[i], members, uid) ==>
              FindUserTeam(Cards(teams, members), uid) == Some(Cards(teams, members)[i])
    ensures FindUserTeam(Cards(teams, members), uid).None? <==>
              forall i :: 0 <= i < |teams| ==> !Affiliated(teams[i], members, uid)
  {
    var cards := Cards(teams, members);
    assert forall i :: 0 <= i < |teams| ==> (BelongsTo(uid)(cards[i]) <==> Affiliated(teams[i], members, uid));
    FindFirstNone(cards, BelongsTo(uid));
    if FindUserTeam(cards, uid).Some? {
      var j := FindFirstSome(cards, BelongsTo(uid));
      forall i | 0 <= i < |teams| && Affiliated(teams[i], members, uid)
        ensures FindUserTeam(cards, uid) == Some(cards[i])
      {
        AtMostOneTeam(teams, members, uid, i, j);
      }
    }
  }
}
