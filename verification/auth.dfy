/**
  `POST /api/auth` (login) and `GET /api/auth` (the current user). Login
  validates the body, looks the user up by email, compares the password
  with the stored hash and answers with a token; both failures of the
  credentials get one and the same answer. The current-user route returns
  the authenticated user's record without its password. The requester's id
  is what the authentication middleware attached to the request.
 */
module Auth {
  import opened Seqs
  import opened Store
  import opened External
  import opened Http
  import Users

  /** The body of a login request. */
  datatype Credentials = Credentials(email: Field, password: Field)

  const PasswordRequired := "Password is required"

  /** The answer to an unknown email and to a wrong password alike. */
  const InvalidCredentials := Response(400, Errors([Message("Invalid credentials")]))

  /** The body passes both checks of the route: a well-formed email and a
      password field that is present (`exists()` lets `null` through). */
  ghost predicate ValidCredentials(x: Services, c: Credentials)
  {
    x.isEmail(AsText(c.email)) && c.password.Some?
  }

  /** Position of a checked field in the route's list of checks. */
  function CredentialRank(param: string): nat
  {
    if param == "email" then 0 else 1
  }

  /** The body field a check reads. */
  function CredentialField(c: Credentials, param: string): Field
  {
    if param == "email" then c.email else c.password
  }

  /** The message a failed check reports. */
  function CredentialMessage(param: string): string
  {
    if param == "email" then Users.EmailInvalid else PasswordRequired
  }

  /** The validator's `errors.array()` for a login body: one entry per failed
      check, email check first, each carrying the field's name, the value
      sent and the check's message. */
  function CredentialErrors(x: Services, c: Credentials): (errors: seq<ErrorItem>)
    ensures errors == [] <==> ValidCredentials(x, c)
    ensures Flags(errors, "email") <==> !x.isEmail(AsText(c.email))
    ensures Flags(errors, "password") <==> c.password.None?
    ensures forall k :: 0 <= k < |errors| ==>
              && errors[k].FieldError?
              && errors[k].param in {"email", "password"}
              && errors[k] == FieldError(errors[k].param, CredentialField(c, errors[k].param), CredentialMessage(errors[k].param))
    ensures forall i, j :: 0 <= i < j < |errors| ==> CredentialRank(errors[i].param) < CredentialRank(errors[j].param)
  {
    var email := if !x.isEmail(AsText(c.email)) then [FieldError("email", c.email, Users.EmailInvalid)] else [];
    var password := if c.password.None? then [FieldError("password", c.password, PasswordRequired)] else [];
    var errors := email + password;
    assert forall k :: 0 <= k < |errors| ==> errors[k] in email || errors[k] in password;
    assert email != [] ==> errors[0] == email[0];
    assert password != [] ==> errors[|email|] == password[0];
    errors
  }

  /** The credentials name a stored user (the first with that email), the
      password was sent as a string, and the stored hash accepts it. */
  ghost predicate Authenticates(x: Services, users: seq<User>, c: Credentials)
  {
    && UserByEmail(users, AsText(c.email)).Some?
    && IsString(c.password)
    && x.compare(AsText(c.password), users[UserByEmail(users, AsText(c.email)).value].password)
  }

  /** The login handler as the route is written. The password goes to
      `bcrypt.compare` as sent; bcrypt rejects anything but a string, so a
      known email with a password of another JSON type (a `null`, say) ends
      in the catch-all's 500, while an unknown email gets "Invalid
      credentials". */
  function LoginAsWritten(x: Services, db: Db, c: Credentials): (r: Outcome)
    ensures r.db == db
    ensures !ValidCredentials(x, c) ==> r.response == Response(400, Errors(CredentialErrors(x, c)))
    ensures ValidCredentials(x, c) && !EmailTaken(db.users, AsText(c.email)) ==>
              r.response == InvalidCredentials
    ensures ValidCredentials(x, c) && EmailTaken(db.users, AsText(c.email)) && !IsString(c.password) ==>
              r.response == AccountServerError
    ensures ValidCredentials(x, c) && IsString(c.password) && r.response.status != 200 ==>
              r.response == InvalidCredentials
    ensures r.response.status == 200 <==> ValidCredentials(x, c) && Authenticates(x, db.users, c)
    ensures r.response.status == 200 ==>
              var i := UserByEmail(db.users, AsText(c.email)).value;
              r.response.body == TokenJson(Token(Payload(db.users[i].id), 360000))
  {
    var errors := CredentialErrors(x, c);
    if errors != [] then Outcome(Response(400, Errors(errors)), db)
    else
      match UserByEmail(db.users, AsText(c.email))
      case None => Outcome(InvalidCredentials, db)
      case Some(i) =>
        if !IsString(c.password) then Outcome(AccountServerError, db)
        else if !x.compare(AsText(c.password), db.users[i].password) then Outcome(InvalidCredentials, db)
        else Outcome(Response(200, TokenJson(Issue(db.users[i].id))), db)
  }

  /** The login handler, with a password of any other JSON type than a
      string treated as a wrong password, so that every failure of valid
      input is the one "Invalid credentials" answer. */
  function Login(x: Services, db: Db, c: Credentials): (r: Outcome)
    ensures r.db == db
    ensures !ValidCredentials(x, c) ==> r.response == Response(400, Errors(CredentialErrors(x, c)))
    ensures ValidCredentials(x, c) && !EmailTaken(db.users, AsText(c.email)) ==>
              r.response == InvalidCredentials
    ensures r.response.status == 200 <==> ValidCredentials(x, c) && Authenticates(x, db.users, c)
    ensures ValidCredentials(x, c) && r.response.status != 200 ==> r.response == InvalidCredentials
    ensures r.response.status == 200 ==>
              var i := UserByEmail(db.users, AsText(c.email)).value;
              && x.compare(AsText(c.password), db.users[i].password)
              && r.response.body == TokenJson(Token(Payload(db.users[i].id), 360000))
  {
    var errors := CredentialErrors(x, c);
    if errors != [] then Outcome(Response(400, Errors(errors)), db)
    else
      match UserByEmail(db.users, AsText(c.email))
      case None => Outcome(InvalidCredentials, db)
      case Some(i) =>
        if !IsString(c.password) || !x.compare(AsText(c.password), db.users[i].password)
        then Outcome(InvalidCredentials, db)
        else Outcome(Response(200, TokenJson(Issue(db.users[i].id))), db)
  }

  /** For a password sent as a string, the route as written and the corrected
      handler give the same outcome. */
  lemma LoginAgreesOnStringPasswords(x: Services, db: Db, c: Credentials)
    requires IsString(c.password)
    ensures LoginAsWritten(x, db, c) == Login(x, db, c)
  {
  }

  /** An unknown email and a wrong password for a known one get identical
      responses, whatever JSON value the password was sent as, so a client
      cannot tell which check failed. */
  lemma LoginHidesWhichCheckFailed(x: Services, unknown: Db, known: Db, c: Credentials)
    requires ValidCredentials(x, c)
    requires !EmailTaken(unknown.users, AsText(c.email))
    requires EmailTaken(known.users, AsText(c.email)) && !Authenticates(x, known.users, c)
    ensures Login(x, unknown, c).response == Login(x, known, c).response == InvalidCredentials
  {
  }

  /** The route as written hides which check failed as long as the password
      is sent as a string. */
  lemma LoginAsWrittenHidesForStringPasswords(x: Services, unknown: Db, known: Db, c: Credentials)
    requires ValidCredentials(x, c) && IsString(c.password)
    requires !EmailTaken(unknown.users, AsText(c.email))
    requires EmailTaken(known.users, AsText(c.email)) && !Authenticates(x, known.users, c)
    ensures LoginAsWritten(x, unknown, c).response == LoginAsWritten(x, known, c).response == InvalidCredentials
  {
    LoginAgreesOnStringPasswords(x, unknown, c);
    LoginAgreesOnStringPasswords(x, known, c);
    LoginHidesWhichCheckFailed(x, unknown, known, c);
  }

  /** The discrepancy: with `{ email, password: null }` the route as written
      answers 400 for an unregistered email and 500 for a registered one, so
      the answer reveals whether the email is registered. The corrected
      handler answers "Invalid credentials" to both. */
  lemma NullPasswordRevealsRegisteredEmail(x: Services, unknown: Db, known: Db, email: string)
    requires x.isEmail(email)
    requires !EmailTaken(unknown.users, email) && EmailTaken(known.users, email)
    ensures var c := Credentials(Some(Str(email)), Some(Null));
            && LoginAsWritten(x, unknown, c).response == InvalidCredentials
            && LoginAsWritten(x, known, c).response == AccountServerError
            && LoginAsWritten(x, unknown, c).response != LoginAsWritten(x, known, c).response
            && Login(x, unknown, c).response == Login(x, known, c).response == InvalidCredentials
  {
  }

  /** Once registered, a user can log in with the same email and password,
      and the token names the id the registration gave them. */
  lemma LoginAfterRegister(
    x: Services, db: Db, req: Users.Registration, newId: Id, saltRandom: string, now: int)
    requires CompareAcceptsHash(x)
    requires Users.ValidRegistration(x, req) && IsString(req.password)
    requires !EmailTaken(db.users, AsText(req.email))
    ensures var after := Users.Register(x, db, req, newId, saltRandom, now).db;
            Login(x, after, Credentials(req.email, req.password)).response
              == Response(200, TokenJson(Token(Payload(newId), 360000)))
  {
    var after := Users.Register(x, db, req, newId, saltRandom, now).db;
    var email := AsText(req.email);
    var n := |db.users|;
    forall k | 0 <= k < n
      ensures after.users[k].email != email
    {
      assert after.users[k] == after.users[..n][k];
    }
    assert UserByEmail(after.users, email) == Some(n);
  }

  /** `User.findById(id).select('-password')`: the record without its password. */
  function WithoutPassword(u: User): PublicUser
  {
    PublicUser(u.id, u.name, u.email, u.avatar, u.date)
  }

  /** The current-user handler: the requester's record without its password,
      or `null` when no stored user has the requester's id. */
  function CurrentUser(db: Db, me: Id): (r: Outcome)
    ensures r.db == db
    ensures r.response.status == 200 && r.response.body.UserJson?
    ensures r.response.body.user.None? <==> forall k :: 0 <= k < |db.users| ==> db.users[k].id != me
    ensures r.response.body.user.Some? ==>
              exists k :: 0 <= k < |db.users| && db.users[k].id == me
                          && r.response.body.user.value == WithoutPassword(db.users[k])
  {
    match UserById(db.users, me)
    case None => Outcome(Response(200, UserJson(None)), db)
    case Some(i) => Outcome(Response(200, UserJson(Some(WithoutPassword(db.users[i])))), db)
  }

  /** After registering with an id no stored user has, the current-user route
      for that id returns the name, email, avatar and date just stored. */
  lemma CurrentUserAfterRegister(
    x: Services, db: Db, req: Users.Registration, newId: Id, saltRandom: string, now: int)
    requires Users.ValidRegistration(x, req) && IsString(req.password)
    requires !EmailTaken(db.users, AsText(req.email))
    requires forall k :: 0 <= k < |db.users| ==> db.users[k].id != newId
    ensures var after := Users.Register(x, db, req, newId, saltRandom, now).db;
            CurrentUser(after, newId).response.body
              == UserJson(Some(PublicUser(
                   newId, AsText(req.name), AsText(req.email),
                   x.gravatar(AsText(req.email), AvatarOptions("200", "pg", "mm")), now)))
  {
    var r := Users.Register(x, db, req, newId, saltRandom, now);
    assert r.response.status == 200;
    var after := r.db;
    var n := |db.users|;
    assert Users.AddsRegisteredUser(x, db, after, req, newId, saltRandom, now);
    forall k | 0 <= k < n
      ensures after.users[k].id != newId
    {
      assert after.users[k] == after.users[..n][k];
    }
    assert UserById(after.users, newId) == Some(n);
  }
}
