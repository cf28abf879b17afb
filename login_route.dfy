/**
 * POST /api/auth/login (app/api/auth/login/route.js): a read-only check of the submitted
 * credentials. The bcrypt comparison is an oracle, `compare(password, hash)`.
 */
module LoginRoute {
  import opened Wrappers
  import opened Text
  import opened Store
  import RegisterRoute

  datatype Credentials = Credentials(email: Option<string>, password: Option<string>)

  datatype Response =
    | LoggedIn(user: PublicUser)  // 200, the user without its password
    | MissingCredentials          // 400 'Email et mot de passe requis'
    | BadCredentials              // 401 'Email ou mot de passe incorrect'

  /** `findUnique({ where: { email } })` */
  function UserByEmail(users: seq<User>, email: string): Option<User> {
    FindFirst(users, (u: User) => u.email == email)
  }

  function Post(body: Credentials, users: seq<User>, compare: (string, string) -> bool): (r: Response)
    ensures r == MissingCredentials <==> !Truthy(body.email) || !Truthy(body.password)
    ensures r.LoggedIn? ==>
              && UserByEmail(users, body.email.value).Some?
              && var u := UserByEmail(users, body.email.value).value;
              && u.email == body.email.value && compare(body.password.value, u.password) && r.user == Public(u)
  {
    if !Truthy(body.email) || !Truthy(body.password) then MissingCredentials
    else match UserByEmail(users, body.email.value)
      case None => BadCredentials
      case Some(u) => if !compare(body.password.value, u.password) then BadCredentials else LoggedIn(Public(u))
  }

  /**
   * With both fields present, login succeeds exactly when the first account with that
   * email accepts the password, and then returns that account without its password;
   * an unknown email and a wrong password give the very same response.
   */
  lemma LoginOutcomes(body: Credentials, users: seq<User>, compare: (string, string) -> bool)
    ensures !Truthy(body.email) || !Truthy(body.password) ==> Post(body, users, compare) == MissingCredentials
    ensures Truthy(body.email) && Truthy(body.password) ==>
      && ((forall i :: 0 <= i < |users| ==> users[i].email != body.email.value) ==>
            Post(body, users, compare) == BadCredentials)
      && (Post(body, users, compare).LoggedIn? <==>
            exists i :: 0 <= i < |users| && users[i].email == body.email.value
                        && (forall j :: 0 <= j < i ==> users[j].email != body.email.value)
                        && compare(body.password.value, users[i].password)
                        && Post(body, users, compare) == LoggedIn(Public(users[i])))
      && (!Post(body, users, compare).LoggedIn? ==> Post(body, users, compare) == BadCredentials)
  {
    if Truthy(body.email) && Truthy(body.password) {
      var e := body.email.value;
      FindFirstNone(users, (u: User) => u.email == e);
      if UserByEmail(users, e).Some? {
        var i := FindFirstSome(users, (u: User) => u.email == e);
        forall k | 0 <= k < |users| && users[k].email == e && (forall j :: 0 <= j < k ==> users[j].email != e)
          ensures k == i
        {
        }
      }
    }
  }

  /**
   * Registration followed by login: once an account is created, logging in with its email
   * and a password the oracle matches against the stored hash returns that account.
   */
  lemma RegisteredUserCanLogIn(body: RegisterRoute.Body, users: seq<User>, id: nat, hash: string -> string,
                               now: int, compare: (string, string) -> bool)
    requires RegisterRoute.Validate(body, users).None?
    requires compare(body.password.value, hash(body.password.value))
    ensures var u := User(id, body.pseudo.value, body.email.value, hash(body.password.value),
                          RegisterRoute.RoleOrDefault(body.role), None, now);
            Post(Credentials(body.email, body.password), users + [u], compare) == LoggedIn(Public(u))
  {
    var u := User(id, body.pseudo.value, body.email.value, hash(body.password.value),
                  RegisterRoute.RoleOrDefault(body.role), None, now);
    RegisterRoute.ValidationRules(body, users);
    FindFirstNone(users, (x: User) => x.email == u.email);
    FindFirstAppend(users, u, (x: User) => x.email == u.email);
  }
}
