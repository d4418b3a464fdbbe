/**
  `POST /api/users`: registration. The handler validates the body, refuses
  an email that is already stored, hashes the password with a fresh salt,
  appends the new user and answers with a token naming it.
 */
module Users {
  import opened Seqs
  import opened Store
  import opened External
  import opened Http

  /** The body of a registration request. */
  datatype Registration = Registration(name: Field, email: Field, password: Field)

  const MinPasswordLength: nat := 6

  const NameRequired := "Name is required"
  const EmailInvalid := "Please include a valid email"
  const PasswordTooShort := "Please enter a password with 6 or more characters"

  /** The answer to an email that is already registered. */
  const UserExists := Response(400, Errors([Message("User already exists")]))

  /** The body passes all three checks of the route. */
  ghost predicate ValidRegistration(x: Services, req: Registration)
  {
    && AsText(req.name) != ""
    && x.isEmail(AsText(req.email))
    && |AsText(req.password)| >= MinPasswordLength
  }

  /** Position of a checked field in the route's list of checks. */
  function CheckRank(param: string): nat
  {
    if param == "name" then 0 else if param == "email" then 1 else 2
  }

  /** The body field a check reads. */
  function CheckedField(req: Registration, param: string): Field
  {
    if param == "name" then req.name else if param == "email" then req.email else req.password
  }

  /** The message a failed check reports. */
  function CheckMessage(param: string): string
  {
    if param == "name" then NameRequired else if param == "email" then EmailInvalid else PasswordTooShort
  }

  /** The validator's `errors.array()` for a registration body: one entry per
      failed check, in the order the checks are declared, each carrying the
      field's name, the value sent and the check's message. */
  function RegistrationErrors(x: Services, req: Registration): (errors: seq<ErrorItem>)
    ensures errors == [] <==> ValidRegistration(x, req)
    ensures Flags(errors, "name") <==> AsText(req.name) == ""
    ensures Flags(errors, "email") <==> !x.isEmail(AsText(req.email))
    ensures Flags(errors, "password") <==> |AsText(req.password)| < MinPasswordLength
    ensures forall k :: 0 <= k < |errors| ==>
              && errors[k].FieldError?
              && errors[k].param in {"name", "email", "password"}
              && errors[k] == FieldError(errors[k].param, CheckedField(req, errors[k].param), CheckMessage(errors[k].param))
    ensures forall i, j :: 0 <= i < j < |errors| ==> CheckRank(errors[i].param) < CheckRank(errors[j].param)
  {
    var name := if AsText(req.name) == "" then [FieldError("name", req.name, NameRequired)] else [];
    var email := if !x.isEmail(AsText(req.email)) then [FieldError("email", req.email, EmailInvalid)] else [];
    var password :=
      if |AsText(req.password)| < MinPasswordLength
      then [FieldError("password", req.password, PasswordTooShort)]
      else [];
    var errors := name + email + password;
    assert forall k :: 0 <= k < |errors| ==> errors[k] in name || errors[k] in email || errors[k] in password;
    assert name != [] ==> errors[0] == name[0];
    assert email != [] ==> errors[|name|] == email[0];
    assert password != [] ==> errors[|name| + |email|] == password[0];
    errors
  }

  /** `after` is `before` with exactly one user appended: the one this request registers. */
  ghost predicate AddsRegisteredUser(
    x: Services, before: Db, after: Db, req: Registration, newId: Id, saltRandom: string, now: int)
  {
    && after.posts == before.posts
    && |after.users| == |before.users| + 1
    && after.users[..|before.users|] == before.users
    && var u := after.users[|before.users|];
       && u.id == newId
       && u.name == AsText(req.name)
       && u.email == AsText(req.email)
       && u.avatar == x.gravatar(u.email, AvatarOptions("200", "pg", "mm"))
       && u.password == x.hash(AsText(req.password), Salt(10, saltRandom))
       && u.date == now
  }

  /** The registration handler. `newId`, `saltRandom` and `now` are what the
      store, `genSalt` and the clock would supply. bcrypt refuses to hash
      anything but a string, so a password sent as another JSON value that
      passes the length check ends in the catch-all's 500. */
  function Register(x: Services, db: Db, req: Registration, newId: Id, saltRandom: string, now: int): (r: Outcome)
    ensures !ValidRegistration(x, req) ==>
              r == Outcome(Response(400, Errors(RegistrationErrors(x, req))), db)
    ensures ValidRegistration(x, req) && EmailTaken(db.users, AsText(req.email)) ==>
              r == Outcome(UserExists, db)
    ensures ValidRegistration(x, req) && !EmailTaken(db.users, AsText(req.email)) && !IsString(req.password) ==>
              r == Outcome(AccountServerError, db)
    ensures r.response.status == 200 <==>
              ValidRegistration(x, req) && !EmailTaken(db.users, AsText(req.email)) && IsString(req.password)
    ensures r.response.status == 200 ==>
              && AddsRegisteredUser(x, db, r.db, req, newId, saltRandom, now)
              && r.response.body == TokenJson(Token(Payload(newId), 360000))
    ensures r.response.status != 200 ==> r.response.status in {400, 500} && r.db == db
  {
    var errors := RegistrationErrors(x, req);
    if errors != [] then Outcome(Response(400, Errors(errors)), db)
    else
      var email := AsText(req.email);
      match UserByEmail(db.users, email)
      case Some(_) => Outcome(UserExists, db)
      case None =>
        if !IsString(req.password) then Outcome(AccountServerError, db)
        else
          var user := User(
            newId,
            AsText(req.name),
            email,
            x.gravatar(email, RegistrationAvatar),
            x.hash(AsText(req.password), Salt(SaltRounds, saltRandom)),
            now);
          var db' := db.(users := db.users + [user]);
          assert db'.users[..|db.users|] == db.users;
          Outcome(Response(200, TokenJson(Issue(user.id))), db')
  }

  /** Registration keeps emails unique: the duplicate check guards the insert. */
  lemma RegisterKeepsEmailsUnique(
    x: Services, db: Db, req: Registration, newId: Id, saltRandom: string, now: int)
    requires EmailsUnique(db.users)
    ensures EmailsUnique(Register(x, db, req, newId, saltRandom, now).db.users)
  {
    var r := Register(x, db, req, newId, saltRandom, now);
    if r.response.status == 200 {
      var users := r.db.users;
      forall i, j | 0 <= i < j < |users|
        ensures users[i].email != users[j].email
      {
        if j == |db.users| {
          assert users[i] == db.users[i];
        } else {
          assert users[i] == db.users[i] && users[j] == db.users[j];
        }
      }
    }
  }

  /** Registering the same email twice, one request after the other: the
      second request is refused and the store holds exactly one user with
      that email. */
  lemma RegisterSameEmailTwice(
    x: Services, db: Db, first: Registration, second: Registration,
    id1: Id, id2: Id, salt1: string, salt2: string, now1: int, now2: int)
    requires ValidRegistration(x, first) && ValidRegistration(x, second)
    requires IsString(first.password)
    requires AsText(first.email) == AsText(second.email)
    requires !EmailTaken(db.users, AsText(first.email))
    ensures var r1 := Register(x, db, first, id1, salt1, now1);
            var r2 := Register(x, r1.db, second, id2, salt2, now2);
            && r1.response.status == 200
            && r2 == Outcome(UserExists, r1.db)
            && UsersWithEmail(r2.db.users, AsText(first.email)) == 1
  {
    var email := AsText(first.email);
    var r1 := Register(x, db, first, id1, salt1, now1);
    var u := r1.db.users[|db.users|];
    assert r1.db.users == db.users + [u] by {
      assert r1.db.users == r1.db.users[..|db.users|] + [u];
    }
    assert EmailTaken(r1.db.users, email) by {
      assert r1.db.users[|db.users|].email == email;
    }
    UsersWithEmailAppend(db.users, u, email);
  }

  /** Two successful registrations with different emails leave two distinct
      users in the store, one per email. */
  lemma RegisterDistinctEmails(
    x: Services, db: Db, first: Registration, second: Registration,
    id1: Id, id2: Id, salt1: string, salt2: string, now1: int, now2: int)
    requires ValidRegistration(x, first) && ValidRegistration(x, second)
    requires IsString(first.password) && IsString(second.password)
    requires AsText(first.email) != AsText(second.email)
    requires !EmailTaken(db.users, AsText(first.email))
    requires !EmailTaken(db.users, AsText(second.email))
    ensures var r1 := Register(x, db, first, id1, salt1, now1);
            var r2 := Register(x, r1.db, second, id2, salt2, now2);
            && r2.response.status == 200
            && |r2.db.users| == |db.users| + 2
            && r2.db.users[|db.users|].email == AsText(first.email)
            && r2.db.users[|db.users| + 1].email == AsText(second.email)
  {
    var r1 := Register(x, db, first, id1, salt1, now1);
    var r2 := Register(x, r1.db, second, id2, salt2, now2);
    assert !EmailTaken(r1.db.users, AsText(second.email)) by {
      forall k | 0 <= k < |r1.db.users|
        ensures r1.db.users[k].email != AsText(second.email)
      {
        if k < |db.users| {
          assert r1.db.users[k] == r1.db.users[..|db.users|][k];
        }
      }
    }
    assert r2.db.users[|db.users|] == r2.db.users[..|r1.db.users|][|db.users|];
  }
}
