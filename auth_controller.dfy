/** The handlers of `src/controllers/authController.js`: registration (check, then insert,
    then issue a token), login (two guards that fail alike, then issue a token), and the
    current user. */
module AuthController {
  import opened Wrappers
  import opened Clock
  import opened Errors
  import opened Password
  import opened Jwt
  import opened UserModel

  const EmailTaken := HttpError(409, "Email already registered")
  const InvalidCredentials := HttpError(401, "Invalid credentials")
  const RegisteredMessage := "User registered successfully"
  const LoginMessage := "Login successful"

  datatype RegisterBody = RegisterBody(name: string, email: string, password: string)
  datatype LoginBody = LoginBody(email: string, password: string)

  /** The user object a login answers with: no password, no creation time. */
  datatype LoginUser = LoginUser(id: int, name: string, email: string)

  /** `data: { user, token }` of both answers. */
  datatype Session<U> = Session(user: U, token: string)

  /** The account `createUser` would append to `us`: the next sequential id, the body's name
      and email, and a stored password that a sound hasher matches with the plaintext. */
  function NewUser(us: seq<User>, body: RegisterBody, hasher: Hasher, salt: Salt, now: Timestamp): (u: User)
    ensures SequentialIds(us) ==> SequentialIds(us + [u])
    ensures u.name == body.name && u.email == body.email && u.createdAt == now
    ensures Sound(hasher) ==> hasher.compare(body.password, u.password)
  {
    User(|us| + 1, body.name, body.email, hasher.hash(body.password, salt), now)
  }

  /** `register`: 409 and no new account when the email is taken up to case; otherwise one
      new account, a 201 with its password-free view, and a token for its id, email and name.
      Emails that were unique up to case stay so. */
  method Register(users: UserStore, body: RegisterBody, hasher: Hasher, salt: Salt,
                  svc: TokenService, now: Timestamp)
    returns (r: Reply<Session<PublicUser>>)
    requires users.Valid()
    modifies users
    ensures users.Valid()
    ensures IndexOfEmail(old(users.users), body.email) >= 0 ==>
      r == Err(EmailTaken) && users.users == old(users.users)
    ensures IndexOfEmail(old(users.users), body.email) < 0 ==>
      var u := NewUser(old(users.users), body, hasher, salt, now);
      && users.users == old(users.users) + [u]
      && r == Ok(201, Some(RegisteredMessage),
                 Session(Redact(u), svc.sign(Payload(u.id, u.email, u.name), now)))
    ensures UniqueEmails(old(users.users)) ==> UniqueEmails(users.users)
  {
    var existingUser := users.FindUserByEmail(body.email);
    if existingUser.Some? {
      return Err(EmailTaken);
    }
    ghost var before := users.users;
    var user := users.CreateUser(body.name, body.email, body.password, hasher, salt, now);
    AppendFreshEmail(before, NewUser(before, body, hasher, salt, now), body.email);
    var token := svc.sign(Payload(user.id, user.email, user.name), now);
    r := Ok(201, Some(RegisteredMessage), Session(user, token));
  }

  /** `login`: an unknown email and a wrong password give the same 401; otherwise a 200 with
      the stored account's id, name and email and a token for its id, email and name.
      The directory is only read. */
  method Login(users: UserStore, body: LoginBody, hasher: Hasher, svc: TokenService, now: Timestamp)
    returns (r: Reply<Session<LoginUser>>)
    ensures r.Err? ==> r.error == InvalidCredentials
    ensures var i := IndexOfEmail(users.users, body.email);
      r.Err? <==> i < 0 || !hasher.compare(body.password, users.users[i].password)
    ensures r.Ok? ==>
      var u := users.users[IndexOfEmail(users.users, body.email)];
      && r.status == 200 && r.message == Some(LoginMessage)
      && r.data == Session(LoginUser(u.id, u.name, u.email), svc.sign(Payload(u.id, u.email, u.name), now))
  {
    var user := users.FindUserByEmail(body.email);
    if user.None? {
      return Err(InvalidCredentials);
    }
    var isPasswordValid := hasher.compare(body.password, user.value.password);
    if !isPasswordValid {
      return Err(InvalidCredentials);
    }
    var u := user.value;
    var token := svc.sign(Payload(u.id, u.email, u.name), now);
    r := Ok(200, Some(LoginMessage), Session(LoginUser(u.id, u.name, u.email), token));
  }

  /** `getCurrentUser`: exactly the claims the gate attached, with status 200. */
  function GetCurrentUser(user: Claims): (r: Reply<Claims>)
    ensures r.Ok? && r.status == 200 && r.data == user
  {
    Ok(200, None, user)
  }

  /** Right after registering, the lookup that `login` does with any case variant of the
      email finds the new account, and the password it was registered with matches the
      stored hash; so `Login` then succeeds for that account. */
  lemma LoginAfterRegister(before: seq<User>, body: RegisterBody, hasher: Hasher, salt: Salt,
                           now: Timestamp, email: string)
    requires Sound(hasher)
    requires IndexOfEmail(before, body.email) < 0
    requires SameEmail(email, body.email)
    ensures var after := before + [NewUser(before, body, hasher, salt, now)];
      var i := IndexOfEmail(after, email);
      i == |before| && after[i].id == |before| + 1 && hasher.compare(body.password, after[i].password)
  {
    var u := NewUser(before, body, hasher, salt, now);
    AppendFreshEmail(before, u, email);
    assert hasher.compare(body.password, hasher.hash(body.password, salt));
  }
}
