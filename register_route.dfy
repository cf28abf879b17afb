/**
 * POST /api/auth/register (app/api/auth/register/route.js): body and field checks, the
 * duplicate-account check, then the insert of the new user with a hashed password.
 */
module RegisterRoute {
  import opened Wrappers
  import opened Text
  import opened Store

  /** The parsed JSON body: something other than an object, or an object's four fields. */
  datatype Body =
    | NotAnObject
    | Fields(pseudo: Option<string>, email: Option<string>, password: Option<string>, role: Option<string>)

  datatype Rejection =
    | InvalidRequest  // 'Requête invalide'
    | MissingFields   // 'Tous les champs sont requis'
    | PseudoTooLong   // more than 50 UTF-16 code units
    | EmailTooLong    // more than 255 UTF-16 code units
    | EmailTaken      // 'Cet email est déjà utilisé'
    | PseudoTaken     // 'Ce pseudo est déjà utilisé'

  datatype Response = Registered(user: PublicUser) | Rejected(why: Rejection)

  function Status(r: Response): (code: int)
    ensures code == 201 || code == 400
    ensures code == 201 <==> r.Registered?
  {
    if r.Registered? then 201 else 400
  }

  predicate Complete(body: Body) {
    body.Fields? && Truthy(body.pseudo) && Truthy(body.email) && Truthy(body.password)
  }

  /** `findFirst({ where: { OR: [{ email }, { pseudo }] } })` */
  function ExistingUser(users: seq<User>, email: string, pseudo: string): Option<User> {
    FindFirst(users, (u: User) => u.email == email || u.pseudo == pseudo)
  }

  lemma ExistingUserNone(users: seq<User>, email: string, pseudo: string)
    ensures ExistingUser(users, email, pseudo).None? <==>
            forall i :: 0 <= i < |users| ==> users[i].email != email && users[i].pseudo != pseudo
  {
    FindFirstNone(users, (u: User) => u.email == email || u.pseudo == pseudo);
  }

  /** The handler's checks in order; `None` lets the request through to the insert. */
  function Validate(body: Body, users: seq<User>): (r: Option<Rejection>)
    ensures r.None? ==> Complete(body) && Utf16Length(body.pseudo.value) <= 50 && Utf16Length(body.email.value) <= 255
    ensures r == Some(InvalidRequest) <==> body.NotAnObject?
  {
    if body.NotAnObject? then Some(InvalidRequest)
    else if !Complete(body) then Some(MissingFields)
    else if Utf16Length(body.pseudo.value) > 50 then Some(PseudoTooLong)
    else if Utf16Length(body.email.value) > 255 then Some(EmailTooLong)
    else match ExistingUser(users, body.email.value, body.pseudo.value)
      case Some(u) => Some(if u.email == body.email.value then EmailTaken else PseudoTaken)
      case None => None
  }

  /** `role || 'user'` */
  function RoleOrDefault(role: Option<string>): (r: string)
    ensures Truthy(role) ==> r == role.value
    ensures !Truthy(role) ==> r == "user"
  {
    if Truthy(role) then role.value else "user"
  }

  /** No two accounts share an email, and no two share a pseudo. */
  predicate UniqueAccounts(users: seq<User>) {
    forall i, j :: 0 <= i < j < |users| ==> users[i].email != users[j].email && users[i].pseudo != users[j].pseudo
  }

  /**
   * The checks run in order: the body's shape, the three required fields, the pseudo's
   * length before the email's, then duplicates. A duplicate is refused with the email
   * message when the account found has the submitted email, else with the pseudo message.
   */
  lemma ValidationRules(body: Body, users: seq<User>)
    ensures body.NotAnObject? ==> Validate(body, users) == Some(InvalidRequest)
    ensures body.Fields? && !Complete(body) ==> Validate(body, users) == Some(MissingFields)
    ensures Complete(body) && Utf16Length(body.pseudo.value) > 50 ==> Validate(body, users) == Some(PseudoTooLong)
    ensures Complete(body) && Utf16Length(body.pseudo.value) <= 50 && Utf16Length(body.email.value) > 255 ==>
              Validate(body, users) == Some(EmailTooLong)
    ensures Complete(body) && Utf16Length(body.pseudo.value) <= 50 && Utf16Length(body.email.value) <= 255 ==>
              && (Validate(body, users) == Some(EmailTaken) ==>
                    exists i :: 0 <= i < |users| && users[i].email == body.email.value)
              && (Validate(body, users) == Some(PseudoTaken) ==>
                    exists i :: 0 <= i < |users| && users[i].pseudo == body.pseudo.value)
              && (Validate(body, users).None? <==>
                    forall i :: 0 <= i < |users| ==> users[i].email != body.email.value && users[i].pseudo != body.pseudo.value)
    ensures Complete(body) && Utf16Length(body.pseudo.value) <= 50 && Utf16Length(body.email.value) <= 255 ==>
              (exists i :: 0 <= i < |users| && users[i].email == body.email.value) &&
              (forall i :: 0 <= i < |users| && users[i].pseudo == body.pseudo.value ==> users[i].email == body.email.value) ==>
                Validate(body, users) == Some(EmailTaken)
    ensures Complete(body) && Utf16Length(body.pseudo.value) <= 50 && Utf16Length(body.email.value) <= 255 ==>
              (forall i :: 0 <= i < |users| ==> users[i].email != body.email.value) &&
              (exists i :: 0 <= i < |users| && users[i].pseudo == body.pseudo.value) ==>
                Validate(body, users) == Some(PseudoTaken)
    ensures Complete(body) && Utf16Length(body.pseudo.value) <= 50 && Utf16Length(body.email.value) <= 255 ==>
              Validate(body, users).Some? ==> Validate(body, users).value in {EmailTaken, PseudoTaken}
  {
    if Complete(body) && Utf16Length(body.pseudo.value) <= 50 && Utf16Length(body.email.value) <= 255 {
      var e, p := body.email.value, body.pseudo.value;
      ExistingUserNone(users, e, p);
      if ExistingUser(users, e, p).Some? {
        var i := FindFirstSome(users, (u: User) => u.email == e || u.pseudo == p);
      }
    }
  }

  /**
   * The pseudo limit counts UTF-16 code units: 26 characters from outside the Basic
   * Multilingual Plane (emoji, say) already make 52 units and are refused as too long.
   */
  lemma AstralCharactersCountTwice(body: Body, users: seq<User>)
    requires Complete(body) && |body.pseudo.value| > 25
    requires forall i :: 0 <= i < |body.pseudo.value| ==> body.pseudo.value[i] as int > 0xFFFF
    ensures Validate(body, users) == Some(PseudoTooLong)
  {
  }

  /** An accepted registration keeps emails and pseudos unique. */
  lemma RegistrationKeepsAccountsUnique(users: seq<User>, u: User)
    requires UniqueAccounts(users)
    requires forall i :: 0 <= i < |users| ==> users[i].email != u.email && users[i].pseudo != u.pseudo
    ensures UniqueAccounts(users + [u])
  {
  }

  /**
   * On a rejection the user table is unchanged; on success exactly one user is appended,
   * with the hashed password and the submitted role or 'user', and the response carries
   * that user without its password.
   */
  method Post(db: Db, body: Body, hash: string -> string, now: int) returns (r: Response)
    requires db.Valid()
    modifies db
    ensures db.Valid()
    ensures Validate(body, old(db.users)).Some? ==>
              r == Rejected(Validate(body, old(db.users)).value) && db.users == old(db.users)
    ensures Validate(body, old(db.users)).None? ==>
              var u := User(old(db.nextUserId), body.pseudo.value, body.email.value, hash(body.password.value),
                            RoleOrDefault(body.role), None, now);
              db.users == old(db.users) + [u] && r == Registered(Public(u))
    ensures db.schools == old(db.schools) && db.teams == old(db.teams) && db.members == old(db.members)
    ensures db.joinRequests == old(db.joinRequests) && db.matches == old(db.matches)
    ensures old(UniqueAccounts(db.users)) ==> UniqueAccounts(db.users)
  {
    if body.NotAnObject? {
      return Rejected(InvalidRequest);
    }
    if !Truthy(body.pseudo) || !Truthy(body.email) || !Truthy(body.password) {
      return Rejected(MissingFields);
    }
    var pseudo, email, password := body.pseudo.value, body.email.value, body.password.value;
    if Utf16Length(pseudo) > 50 {
      return Rejected(PseudoTooLong);
    }
    if Utf16Length(email) > 255 {
      return Rejected(EmailTooLong);
    }
    var existingUser := ExistingUser(db.users, email, pseudo);
    if existingUser.Some? {
      return Rejected(if existingUser.value.email == email then EmailTaken else PseudoTaken);
    }
    ExistingUserNone(db.users, email, pseudo);
    var user := db.CreateUser(pseudo, email, hash(password), RoleOrDefault(body.role), now);
    r := Registered(Public(user));
  }
}
