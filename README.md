# SlayerGates request rules, in Dafny

SlayerGates is a Next.js site for school e-sport tournaments, backed by a Prisma/PostgreSQL
store. This project models the part of it that makes decisions:

- the route gate in front of every page;
- the handlers that create teams, accounts and schools, and the login check;
- the read-only views that list a captain's team, the leaderboard, the upcoming matches and the schools;
- the page logic of the tournaments and teams pages;
- the index arithmetic of the home-page carousel.

The store is the class `Store.Db`. It holds one sequence per table, in insertion order, and one
autoincrement counter per table that hands out fresh ids. Prisma's `findFirst` becomes `Store.FindFirst`,
the first matching row in table order. A `findMany` with a `where` clause becomes `Store.Where`.
String lengths that the handlers compare with limits are JavaScript's `.length`, counted in UTF-16 code
units (`Text.Utf16Length`).

Three things are parameters rather than code:

- Token verification is `decode: string -> Option<nat>`, the user id a JWT carries. `Auth.VerifyAuth`
  then checks that this user still exists.
- bcrypt is `hash: string -> string` and `compare: (string, string) -> bool`.
- The clock is an integer `now`.

Handlers that write to the store are module-level methods that take the store `db: Db` and insert through
its methods (`CreateUser`, `CreateSchool`, `CreateTeam`, `CreateTeamMember`). The handlers' `ensures` give
every table after the call in terms of the tables before it, together with the invariant the write keeps;
the id counters are stated by the insert methods only (each insert advances its own counter by one). Handlers and views that only read are functions.
Lemmas connect each of them to what the site promises.

Modules, one per source file, plus shared ones:

| module | file | models |
|---|---|---|
| `Wrappers`, `Text`, `Sorting` | wrappers.dfy, text.dfy, sorting.dfy | `Option`, the JavaScript string methods used, and a stable sort by a comparison |
| `Store` | store.dfy | entities, `findFirst`/`findMany`, the store class and its inserts |
| `Auth` | auth.dfy | `verifyAuth` (lib/auth.js) |
| `TeamsRoute` | teams_route.dfy | app/api/teams/route.js: `isValidLogo`, `POST` |
| `CaptainRoute` | captain_route.dfy | app/api/teams/captain/route.js |
| `Middleware` | middleware.dfy | middleware.js |
| `RegisterRoute`, `LoginRoute` | register_route.dfy, login_route.dfy | app/api/auth/register and login |
| `SchoolsRoute` | schools_route.dfy | app/api/schools/route.js |
| `LeaderboardRoute` | leaderboard_route.dfy | app/api/leaderboard/route.js |
| `UpcomingRoute` | upcoming_route.dfy | app/api/matches/upcoming/route.js |
| `TournamentsPage`, `TeamsPage` | tournaments_page.dfy, teams_page.dfy | app/tournaments/page.js, app/teams/page.js |
| `CarouselComponent` | carousel.dfy | app/components/Carousel.js |

## Model

| member | source | states |
|---|---|---|
| Store.Public | app/api/auth/login/route.js:28-29 | the API view of a user keeps every stored field except the password |
| Store.FindFirst | app/api/teams/route.js:134-141 | `findFirst`: whatever it finds satisfies the `where` clause |
| Store.FindFirstNone | app/api/teams/route.js:134-141 | `findFirst` finds nothing exactly when no row satisfies the `where` clause |
| Store.FindFirstSome | app/api/teams/route.js:134-141 | what `findFirst` finds is a stored row satisfying the clause, with no satisfying row before it |
| Store.Where | app/api/teams/captain/route.js:28-31 | `findMany` with `where`: only stored rows satisfying the clause, every satisfying row, and no row more often than stored |
| Store.AtMostOneTeam | app/api/teams/route.js:134-174 | under the one-team-per-user invariant, two teams a user captains or belongs to are the same team |
| Store.Db.CreateUser | app/api/auth/register/route.js:49-65 | appends exactly one user with the next fresh id and advances the user counter by one; every other table and counter is unchanged |
| Store.Db.CreateSchool | app/api/schools/route.js:56-68 | appends exactly one school (name, city) with a fresh id and advances the school counter by one; every other table and counter is unchanged |
| Store.Db.CreateTeam | app/api/teams/route.js:225-237 | appends exactly one team with a fresh id, distinct from every existing team id, and advances the team counter by one; every other table and counter is unchanged |
| Store.Db.CreateTeamMember | app/api/teams/route.js:240-247 | appends exactly the given member row and nothing else; the counters are unchanged |
| Auth.VerifyAuth | lib/auth.js:28-62 | an empty token yields no user; the user it yields is the decoded id of a stored user, and a decodable token of a stored user always yields it |
| Auth.CookieUser | middleware.js:49-50 | no cookie means no user; otherwise the cookie value goes through verifyAuth |
| Text.Utf16Length | app/api/auth/register/route.js:22-27 | JavaScript's `.length`: between one and two units per character, one per character below U+10000 and two per character above U+FFFF |
| Text.Utf16LengthAppend | app/api/auth/register/route.js:22-27 | the length of a concatenation is the sum of the lengths, so each character contributes its own count in any mix |
| Text.Utf16LengthPush | app/api/auth/register/route.js:22-27 | appending one character adds one unit, or two above U+FFFF |
| Text.Utf16LengthMixed | app/api/auth/register/route.js:22-27 | "a" followed by U+1F600 has length 3 |
| Text.LastIndexOf | app/api/teams/route.js:15 | -1 exactly when the character is absent, else the index of its last occurrence |
| TeamsRoute.IsValidLogo | app/api/teams/route.js:10-17 | an empty name is accepted |
| TeamsRoute.LogoNameRule | app/api/teams/route.js:10-17 | a non-empty name is accepted exactly when the lower-cased suffix from its last '.' is .jpg, .jpeg, .png or .webp; a name without '.' is refused |
| TeamsRoute.Status | app/api/teams/route.js:79-268 | 201 exactly for a created team; a rejection is 401 exactly when the caller is not authenticated and 400 otherwise; 500 exactly for a store failure |
| TeamsRoute.MembershipOfNone | app/api/teams/route.js:134-154 | the membership lookup finds nothing exactly when the user has no member row |
| TeamsRoute.CaptaincyOfNone | app/api/teams/route.js:157-174 | the captaincy lookup finds nothing exactly when the user captains no team |
| TeamsRoute.PendingOfNone | app/api/teams/route.js:177-192 | the pending-request lookup finds nothing exactly when the user has no 'pending' request |
| TeamsRoute.TeamInSchoolOfNone | app/api/teams/route.js:195-222 | the same-school lookup finds nothing exactly when no team of that school has the user as captain or member |
| TeamsRoute.Guard | app/api/teams/route.js:79-222 | the handler's check chain: unauthenticated exactly when the cookie yields no user; an acceptance carries that user, the non-empty name, the school and the logo bytes, and a logo it lets through has an accepted name |
| TeamsRoute.ChecksRunInOrder | app/api/teams/route.js:79-222 | the first failing check decides, in this order: authentication, name and school, logo, existing membership (the team named is one the user has a member row in), existing captaincy (the team found is the user's), pending request; passing all of them is acceptance |
| TeamsRoute.SameSchoolCheckNeverFires | app/api/teams/route.js:195-222 | the same-school rejection is never the outcome |
| TeamsRoute.PendingRequestBlocksCreation | app/api/teams/route.js:177-192 | an authenticated user with a join request, to any team, whose status is exactly 'pending' is always rejected |
| TeamsRoute.UppercasePendingDoesNotBlock | app/api/teams/route.js:177-192 | join requests whose status is 'PENDING' do not stop a user who passes every other check: the user is accepted |
| TeamsRoute.SecondCreationFailsAsMember | app/api/teams/route.js:134-247 | after a creation, the same user's next complete request is refused with the membership error naming the new team, not with the captaincy error |
| TeamsRoute.CreationKeepsOneTeamPerUser | app/api/teams/route.js:225-247 | appending a team and its captain's member row, for a user with neither, keeps every user on at most one team |
| TeamsRoute.Post | app/api/teams/route.js:73-272 | a rejection leaves teams and members unchanged; an unknown school fails with 500 and no write; otherwise exactly the new team (fresh id, caller as captain) and the 'captain' member row are appended; users, schools, join requests and matches never change; one team per user is preserved |
| CaptainRoute.CaptainedBy | app/api/teams/captain/route.js:28-31 | exactly the stored teams whose captain is the user |
| CaptainRoute.Get | app/api/teams/captain/route.js:15-49 | 'Non autorisé' exactly when there is no cookie; with a cookie, 'Token invalide' exactly when the token verifies to no user; a verified user always gets the list, which holds exactly the stored teams whose captain is the user |
| CaptainRoute.NoCaptainNoTeams | app/api/teams/captain/route.js:28-31 | a user who captains nothing gets the empty list |
| CaptainRoute.AtMostOneCaptainedTeam | app/api/teams/captain/route.js:28-31 | when no user captains two teams, the list has at most one team |
| CaptainRoute.CaptainSeesCreatedTeam | app/api/teams/captain/route.js:28-49 | right after a creation, the creator's captain list is exactly the new team |
| Middleware.Decide | middleware.js:4-85 | public routes, detail pages and static assets pass; a path without a protected prefix, or with an authenticated cookie, passes; a redirect carries the requested path |
| Middleware.OnlyUnauthenticatedProtectedIsStopped | middleware.js:22-84 | a request is stopped exactly when its path is in no public route, detail page or static rule, has a protected prefix, and the cookie authenticates nobody; it is then redirected to login with the path as `redirect` |
| Middleware.ApiUnauthorizedUnreachable | middleware.js:41-59 | the JSON 401 answer is never given |
| Middleware.OpenPathsIgnoreAuth | middleware.js:6-38 | public routes, `/teams/<seg>` and `/tournaments/<seg>` pages and static assets pass whatever the cookie |
| Middleware.CreatePagesAreOpen | middleware.js:27-47 | `/teams/create` and `/tournaments/create` pass without a cookie |
| Middleware.ProfileRedirects | middleware.js:41-64 | `/profile` without a cookie is redirected to login with redirect `/profile` |
| Middleware.CreateSubpathRedirects | middleware.js:27-64 | `/teams/create/x` without a cookie is redirected to login |
| RegisterRoute.Status | app/api/auth/register/route.js:10-83 | 201 exactly for a registration, 400 for every rejection |
| RegisterRoute.RoleOrDefault | app/api/auth/register/route.js:54 | the submitted role when present, else 'user' |
| RegisterRoute.ExistingUserNone | app/api/auth/register/route.js:30-37 | the duplicate lookup finds nothing exactly when no user has the email or the pseudo |
| RegisterRoute.Validate | app/api/auth/register/route.js:10-43 | 'Requête invalide' exactly for a body that is not an object; letting a body through means all three fields are present, the pseudo has at most 50 UTF-16 units and the email at most 255 |
| RegisterRoute.ValidationRules | app/api/auth/register/route.js:10-43 | checks in order: body shape, three required fields, pseudo over 50 UTF-16 units, email over 255, then duplicates; the email message implies a user with that email, the pseudo message a user with that pseudo; no rejection exactly when neither is taken; the email message whenever the email is taken and every account with the pseudo has that email too (registering twice); the pseudo message whenever no account has the email and one has the pseudo; past the length checks, every rejection is one of the two duplicate messages |
| RegisterRoute.AstralCharactersCountTwice | app/api/auth/register/route.js:22-24 | a pseudo of more than 25 characters above U+FFFF (emoji) is refused as too long |
| RegisterRoute.RegistrationKeepsAccountsUnique | app/api/auth/register/route.js:30-65 | adding an account whose email and pseudo are both free keeps emails and pseudos unique |
| RegisterRoute.Post | app/api/auth/register/route.js:6-83 | a rejection leaves the users unchanged; success appends exactly one user with hash(password) and role-or-'user' and returns it without the password; other tables never change; uniqueness is preserved |
| LoginRoute.Post | app/api/auth/login/route.js:6-44 | 400 exactly when email or password is missing; a success returns, without its password, the account found for that email, whose stored hash the oracle matches with the password |
| LoginRoute.LoginOutcomes | app/api/auth/login/route.js:10-34 | a missing field gives 400; with both fields, login succeeds exactly when the account with that email accepts the password and returns that account without its password; an unknown email and a wrong password give the same 401 |
| LoginRoute.RegisteredUserCanLogIn | app/api/auth/login/route.js:14-34 | after a successful registration, logging in with its email and a password the oracle matches returns the new account |
| SchoolsRoute.ByNameIsTotalPreorder | app/api/schools/route.js:8-10 | name order compares every pair and is transitive |
| SchoolsRoute.Get | app/api/schools/route.js:7-18 | every school exactly once, in ascending name order |
| SchoolsRoute.Validate | app/api/schools/route.js:34-54 | acceptance exactly when name and city are present and no school has both; a missing field gives the missing-fields error, otherwise the duplicate error |
| SchoolsRoute.SameNameOtherCityAccepted | app/api/schools/route.js:42-47 | a name used only in other cities is accepted |
| SchoolsRoute.Post | app/api/schools/route.js:30-68 | a rejection leaves schools unchanged; success appends exactly the school (fresh id, name, city); other tables never change; (name, city) uniqueness is preserved |
| LeaderboardRoute.Won | app/api/leaderboard/route.js:32-35 | a team never wins more completed matches than it played |
| LeaderboardRoute.Rate | app/api/leaderboard/route.js:41 | 0 with no match, 1000 (100.0) when every match was won, never above 1000 |
| LeaderboardRoute.RateRounds | app/api/leaderboard/route.js:41 | the rate is 0 with no match, otherwise 1000·wins/total rounded to the nearest tenth of a percent, halves up, and never above 100.0 |
| LeaderboardRoute.Stats | app/api/leaderboard/route.js:31-51 | a row carries the team's id and name; wins are its completed matches won on either side; wins + losses is its completed matches; points equal wins; the rate is the rounded win rate |
| LeaderboardRoute.Rows | app/api/leaderboard/route.js:31 | one row per team, in table order |
| LeaderboardRoute.RanksIsTotalPreorder | app/api/leaderboard/route.js:54-59 | the comparison orders every pair and is transitive |
| Sorting.Sort | app/api/leaderboard/route.js:54-59 | the comparator sort returns a permutation of its input, of the same length |
| Sorting.SortSorted | app/api/leaderboard/route.js:54-59 | with a total, transitive comparison, every element of the sorted list may precede every later one |
| LeaderboardRoute.Get | app/api/leaderboard/route.js:54-61 | the rows are a permutation of the per-team rows, points never increase, and within equal points the rate never increases |
| LeaderboardRoute.OneEntryPerTeam | app/api/leaderboard/route.js:31-51 | every team's row is listed, and every listed row is some team's |
| LeaderboardRoute.UnfinishedMatchIgnored | app/api/leaderboard/route.js:9-28 | adding a match that is not 'COMPLETED' changes no row |
| LeaderboardRoute.CompletedMatchCounted | app/api/leaderboard/route.js:32-36 | a completed match between two teams adds a win to its winner and a loss to the other side, and a loss to both when there is no winner |
| LeaderboardRoute.OtherTeamsMatchIgnored | app/api/leaderboard/route.js:9-36 | a match the team did not play leaves its row unchanged |
| UpcomingRoute.ByTimeIsTotalPreorder | app/api/matches/upcoming/route.js:47-49 | time order compares every pair and is transitive |
| UpcomingRoute.AllUpcoming | app/api/matches/upcoming/route.js:24-49 | a permutation of the filtered matches, in non-decreasing time |
| UpcomingRoute.Get | app/api/matches/upcoming/route.js:50 | at most 10 matches, a prefix of the full ordered list, and the whole list when it is shorter than 10 |
| UpcomingRoute.ListedMatchesAreUpcoming | app/api/matches/upcoming/route.js:24-49 | each listed match is stored, 'pending' or 'in_progress', and not earlier than now; the list is in non-decreasing time |
| UpcomingRoute.EarliestAreListed | app/api/matches/upcoming/route.js:24-50 | an upcoming match left out means the list is full and no listed match is later than it |
| TournamentsPage.CaptainFlag | app/hooks/useAuth.js:20-22 | captain exactly when the captain list is a non-empty array |
| TournamentsPage.UserTeam | app/tournaments/page.js:16-29 | a team exactly for a logged-in captain whose list is non-empty, and then the list's first team |
| TournamentsPage.IsTeamRegistered | app/tournaments/page.js:63-66 | false without a team, else true exactly when some registration has the team's id |
| TournamentsPage.Remaining | app/tournaments/page.js:107 | places left plus registrations equal the maximum, with no clamping |
| TournamentsPage.StatusLabel | app/tournaments/page.js:122-132 | 'Complet' exactly when count ≥ max; 'Presque complet' exactly when count < max and count ≥ 0.8·max; 'Inscriptions ouvertes' otherwise |
| TournamentsPage.FullMeansNoPlaceLeft | app/tournaments/page.js:107-128 | 'Complet' exactly when no place is left |
| TournamentsPage.ButtonFor | app/tournaments/page.js:137-165 | for a captain: already registered, else full, else the button; otherwise the captains-only note for a user and the login link for a visitor, each exactly in its case |
| TournamentsPage.RegisteredTakesPrecedence | app/tournaments/page.js:137-153 | a registered team sees its registration even when the tournament is full, and nobody sees the button then |
| TournamentsPage.HandleRegister | app/tournaments/page.js:52-61 | a visitor goes to login; a non-captain stays; a captain, and only a captain, goes to the tournament's register page |
| TournamentsPage.UserTeamIsCaptainedTeam | app/tournaments/page.js:16-29 | when no user captains two teams, the page's team is the user's captained team and exists exactly when there is one |
| TeamsPage.FindUserTeam | app/teams/page.js:28-31 | a team found has the user as captain or among its members' user ids; nothing is found exactly when no team has |
| TeamsPage.Load | app/teams/page.js:16-40 | a failed response sets the error (its own or the default) and nothing else; an ok one sets the teams or []; without a user the team is never set; a user with a missing team list gets the TypeError message; otherwise the team is the first one the user belongs to |
| TeamsPage.Render | app/teams/page.js:55-89 | an error hides the list; the create link exactly for a user without a team, the login link exactly for a visitor without one, the team's name when there is one |
| TeamsPage.VisitorSeesLoginLink | app/teams/page.js:27-89 | a visitor always gets the login link |
| TeamsPage.MemberUserIds | app/api/teams/route.js:37-47 | a user id is listed exactly when the user has a member row in the team |
| TeamsPage.Cards | app/api/teams/route.js:21-49 | one card per stored team, with its captain and its members' user ids |
| TeamsPage.UserTeamIsAffiliatedTeam | app/teams/page.js:28-31 | under the one-team-per-user invariant, the page's team is the card of the team the user captains or belongs to, and there is none exactly when there is no such team |
| CarouselComponent.NextIndex | app/components/Carousel.js:38-42 | stays in range and is (i + 1) mod 3 |
| CarouselComponent.PrevIndex | app/components/Carousel.js:44-48 | stays in range and is (i + 2) mod 3 |
| CarouselComponent.PrevUndoesNext | app/components/Carousel.js:38-48 | previous undoes next, and next undoes previous |
| CarouselComponent.AdvanceIsModular | app/components/Carousel.js:38-42 | k steps forward from i land on (i + k) mod 3 |
| CarouselComponent.FullRoundReturns | app/components/Carousel.js:8-42 | three steps forward return to the starting slide |
| CarouselComponent.Carousel.constructor | app/components/Carousel.js:6 | the first slide is shown |
| CarouselComponent.Carousel.Next | app/components/Carousel.js:38-42 | moves one slide forward and stays in range |
| CarouselComponent.Carousel.Prev | app/components/Carousel.js:44-48 | moves one slide back and stays in range |
| CarouselComponent.Carousel.Tick | app/components/Carousel.js:28-36 | the timer makes the same move as `nextSlide` |
| CarouselComponent.Carousel.Select | app/components/Carousel.js:102 | clicking indicator k shows slide k |

## Left out

- TeamsRoute.PendingRequestBlocksCreation: the pending check compares the status with 'pending' in lower case (app/api/teams/route.js:180), as modelled. The app's join handler, which is not part of this model, writes 'PENDING'. So a request created by the app never blocks team creation; only seeded lower-case rows do (`TeamsRoute.UppercasePendingDoesNotBlock`).
- TeamsRoute.Guard: the membership rejection carries the id of the team of the member row found. The handler's 400 body carries that team's whole record (`include: { team: true }`).
- Store.FindFirst reads rows in table order. Without `orderBy`, Prisma promises no order, so which row is found among several matches is a model choice. This fixes the exact team carried by the membership and captaincy rejections of `TeamsRoute.Post`, and the EmailTaken/PseudoTaken choice when one account matches the email and another the pseudo. `TeamsRoute.ChecksRunInOrder` and `RegisterRoute.ValidationRules` hold whichever matching row is found.
- JWT signing and verification and bcrypt are oracles (`decode`, `hash`, `compare`). Token expiry, the secret, and the 10 salt rounds are not modelled.
- Prisma plumbing is not modelled: connection handling and `$disconnect`. The debugging `$queryRaw` and `findFirst` at app/api/matches/upcoming/route.js:13-22 only log. The `include`/`select` shapes of results are not modelled, except the password-free user view and the team cards the teams page reads.
- Store-side failures other than a team's unknown school are not modelled. These are the `catch` blocks answering 500, and the P2002 unique-constraint answer at app/api/auth/register/route.js:88-93. The model's store has no uniqueness constraint on users; the handler's own duplicate check is modelled instead.
- Concurrency is not modelled: requests run one at a time. The gap between the checks and the inserts in the teams and register handlers, which lets two simultaneous requests both pass, is not captured.
- The one-team-per-user invariant is proved for teams and member rows created by POST /api/teams only. The join-approval and member-management handlers are not part of this model.
- Tournament registration and the join-request transitions are not modelled. Join requests are only read, through the pending check; the join and request-approval handlers, which write them, are not part of this model.
- `school_id` is taken as an already parsed number. What `parseInt` does with a malformed value is not modelled.
- The logo's base64 encoding (app/api/teams/route.js:126-131) is not modelled: the model stores the file's bytes as they are.
- `isValidLogo` lower-cases ASCII letters only. JavaScript's full Unicode lower-casing is not modelled.
- LeaderboardRoute.Rate: the win rate is exact tenths of a percent, rounded half up. `toFixed(1)` on a binary double can round a tie the other way. `parseFloat` on that string gives the tenths back, so the sort compares the same keys apart from those ties.
- TournamentsPage.StatusLabel: `count >= max * 0.8` is written `5 * count >= 4 * max`. The floating-point product is not modelled.
- SchoolsRoute.Get orders names by character code. The database collation may order them differently. The `select` of id, name and city is the whole school record here.
- UpcomingRoute.Get and LeaderboardRoute.Get keep rows with equal keys in table order. The database does not promise any order for equal `scheduled_time`.
- The middleware's `catch` branch (middleware.js:68-80) is not modelled, because `verifyAuth` catches its own errors and returns null. The login URL is represented by its `redirect` value alone.
- Cookies are not modelled: setting the login cookie after registration, and the other cookie-handling files. Neither are `fetch`, router navigation, React state hooks, timers and their clean-up, loading states, date formatting, or the JSX around the decisions.
- GET /api/teams is a plain read. It appears only as the card list the teams page consumes (`TeamsPage.Cards`).
- TeamsPage.Load: models a single run of the fetch effect, from the initial state. The effect re-runs when `user` changes (app/teams/page.js:43) and never clears `error`, `teams` or `userTeam`, so an error from an earlier run survives a later successful fetch; that carried-over state is not modelled.
- TeamsPage.Load: the TypeError text is the one V8 produces. Other engines word it differently.
