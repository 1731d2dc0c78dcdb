/**
 * The authentication routes: signup (always as a USER), login, and the
 * caller's own password change.
 */
module AuthRoutes {
  import opened JsValues
  import opened Validation
  import opened Http
  import opened Ratings
  import opened Tables
  import opened AdminRoutes

  /** The user columns a signup or login reply carries: never the hash. */
  datatype PublicUser = PublicUser(id: UserId, name: string, email: string, role: Role)

  function PublicOf(id: UserId, u: UserRow): PublicUser
  {
    PublicUser(id, u.name, u.email, u.role)
  }

  const EmailRegisteredMessage := "Email already registered"

  /** `POST /signup`. The request's `role`, if any, is ignored. `hash` is what
      the password hashing library returns for the password. */
  method Signup(db: Database, req: NewUser, hash: string) returns (reply: Reply<PublicUser>)
    requires db.Valid()
    modifies db
    ensures db.Valid()
    ensures FieldErrors(FieldsOf(req)) != [] ==>
      reply == Reply(StatusBadRequest, Errors(FieldErrors(FieldsOf(req))))
    ensures FieldErrors(FieldsOf(req)) == [] && EmailTaken(old(db.users), req.email.s) ==>
      reply == Reply(StatusBadRequest, Message(EmailRegisteredMessage))
    ensures FieldErrors(FieldsOf(req)) == [] && !EmailTaken(old(db.users), req.email.s) && req.password == Undefined ==>
      reply == ServerError()
    ensures reply.status != StatusCreated ==> unchanged(db)
    ensures reply.status == StatusCreated <==>
      FieldErrors(FieldsOf(req)) == [] && !EmailTaken(old(db.users), req.email.s) && req.password.Text?
    ensures reply.status == StatusCreated ==>
      && reply.body.Json?
      && reply.body.value.id !in old(db.users)
      && db.users == old(db.users)[reply.body.value.id := UserRow(req.name.s, req.email.s, req.address.s, hash, User)]
      && reply.body.value == PublicUser(reply.body.value.id, req.name.s, req.email.s, User)
      && db.stores == old(db.stores) && db.ratings == old(db.ratings)
  {
    var errors := ValidateUserFields(FieldsOf(req));
    if errors != [] {
      return Reply(StatusBadRequest, Errors(errors));
    }
    if EmailTaken(db.users, req.email.s) {
      return Reply(StatusBadRequest, Message(EmailRegisteredMessage));
    }
    if !req.password.Text? {
      return ServerError();
    }
    var id := db.InsertUser(UserRow(req.name.s, req.email.s, req.address.s, hash, User));
    reply := Reply(StatusCreated, Json(PublicUser(id, req.name.s, req.email.s, User)));
  }

  const InvalidCredentialsMessage := "Invalid credentials"

  /** `POST /login`. `matches(password, hash)` is the hashing library's
      comparison; it throws on a password that is not a string. */
  function Login(users: map<UserId, UserRow>, email: Field, password: Field,
                 matches: (string, string) -> bool): (r: Reply<PublicUser>)
    requires EmailsUnique(users)
    // an unknown e-mail and a wrong password get the same answer
    ensures !(email.Text? && EmailTaken(users, email.s)) ==>
      r == Reply(StatusBadRequest, Message(InvalidCredentialsMessage))
    ensures forall id | id in users && email == Text(users[id].email) ::
      r == if !password.Text? then ServerError()
           else if matches(password.s, users[id].passwordHash) then Reply(StatusOk, Json(PublicOf(id, users[id])))
           else Reply(StatusBadRequest, Message(InvalidCredentialsMessage))
  {
    if !email.Text? || !EmailTaken(users, email.s) then
      Reply(StatusBadRequest, Message(InvalidCredentialsMessage))
    else
      var id :| id in users && users[id].email == email.s;
      if !password.Text? then ServerError()
      else if !matches(password.s, users[id].passwordHash) then
        Reply(StatusBadRequest, Message(InvalidCredentialsMessage))
      else
        Reply(StatusOk, Json(PublicOf(id, users[id])))
  }

  const PasswordRequiredMessage := "newPassword is required"
  const PasswordUpdatedMessage := "Password updated successfully"

  /** `POST /change-password` for the authenticated user `caller`. The new
      password is validated with fixed stand-ins for the other fields. */
  method ChangePassword(db: Database, caller: UserId, newPassword: Field, hash: string)
    returns (reply: Reply<()>)
    requires db.Valid()
    modifies db
    ensures db.Valid()
    ensures !Truthy(newPassword) ==>
      reply == Reply(StatusBadRequest, Message(PasswordRequiredMessage)) && unchanged(db)
    // only the password rule can fail
    ensures Truthy(newPassword) && !IsPassword(newPassword.s) ==>
      reply == Reply(StatusBadRequest, Errors([PasswordError])) && unchanged(db)
    ensures Truthy(newPassword) && IsPassword(newPassword.s) ==>
      && reply == Reply(StatusOk, Message(PasswordUpdatedMessage))
      && db.users == (if caller in old(db.users)
                      then old(db.users)[caller := old(db.users)[caller].(passwordHash := hash)]
                      else old(db.users))
      && db.stores == old(db.stores) && db.ratings == old(db.ratings)
  {
    if !Truthy(newPassword) {
      return Reply(StatusBadRequest, Message(PasswordRequiredMessage));
    }
    var errors := ValidateNewPassword(newPassword);
    if errors != [] {
      return Reply(StatusBadRequest, Errors(errors));
    }
    db.SetPasswordHash(caller, hash);
    reply := Reply(StatusOk, Message(PasswordUpdatedMessage));
  }
}
