/** The `/api/auth` routes: register, login and the current-user query. */
module AuthRoutes {
  import opened Wrappers
  import opened JsText
  import opened EmailPattern
  import opened UserModel
  import opened Tokens
  import opened AuthMiddleware

  const NameTooShort: string := "Name must be at least 2 characters"
  const InvalidEmail: string := "Please enter a valid email"
  const PasswordTooShort: string := "Password must be at least 6 characters"
  const EmailTaken: string := "Email already registered"
  const MissingCredentials: string := "Email and password are required"
  const InvalidCredentials: string := "Invalid email or password"
  const NoToken: string := "No token provided"

  /** The success body of register and login: a message, the token and the public user;
      no field can carry the password or its hash. */
  datatype AuthReply = AuthReply(status: nat, message: string, token: string, user: PublicUser)

  datatype RegisterBody = RegisterBody(name: Option<string>, email: Option<string>, password: Option<string>)

  /** The register route's own checks, in order; the message of the first that fails. */
  function RegisterError(body: RegisterBody): (e: Option<string>)
    ensures e.None? <==>
              && body.name.Some? && Utf16Length(Trim(body.name.value)) >= MinNameLength
              && body.email.Some? && Matches(body.email.value)
              && body.password.Some? && Utf16Length(body.password.value) >= MinPasswordLength
    ensures e == Some(NameTooShort) <==> Falsy(body.name) || Utf16Length(Trim(body.name.value)) < 2
    ensures e == Some(InvalidEmail) <==>
              && !(Falsy(body.name) || Utf16Length(Trim(body.name.value)) < 2)
              && (Falsy(body.email) || !Matches(body.email.value))
    ensures e == Some(PasswordTooShort) <==>
              && !(Falsy(body.name) || Utf16Length(Trim(body.name.value)) < 2)
              && !(Falsy(body.email) || !Matches(body.email.value))
              && (Falsy(body.password) || Utf16Length(body.password.value) < 6)
  {
    if Falsy(body.name) || Utf16Length(Trim(body.name.value)) < MinNameLength then Some(NameTooShort)
    else if Falsy(body.email) || !Matches(body.email.value) then Some(InvalidEmail)
    else if Falsy(body.password) || Utf16Length(body.password.value) < MinPasswordLength then Some(PasswordTooShort)
    else None
  }

  /** A successful registration: the reply and the collection with the new user added. */
  datatype Registered = Registered(reply: AuthReply, users: seq<User>)

  /** `POST /api/auth/register`. The new user gets the fresh id the database generates
      (`newId`), the trimmed name, the lower-cased trimmed address and the hash of the
      password. Every failure is a 400 that stores nothing. The duplicate look-up filters on
      `email.toLowerCase()`, which Mongoose casts through the field's setters as well. */
  function Register(users: seq<User>, body: RegisterBody, newId: UserId,
                    hash: string -> string, sign: SignRequest -> string): (r: Result<Registered>)
    requires FindById(users, newId).None?
    ensures r.Fail? ==> r.status == 400
    ensures RegisterError(body).Some? ==> r == Fail(400, RegisterError(body).value)
    ensures RegisterError(body).None? ==>
              (r == Fail(400, EmailTaken) <==> FindByEmail(users, ToLower(body.email.value)).Some?)
    ensures RegisterError(body).None? && FindByEmail(users, ToLower(body.email.value)).None? ==> r.Ok?
    ensures r.Ok? ==>
              var u := User(newId, Trim(body.name.value), Trim(ToLower(body.email.value)),
                            hash(body.password.value));
              && r.value.users == users + [u]
              && r.value.reply == AuthReply(201, "Registration successful", GenerateToken(sign, newId), ToPublic(u))
  {
    match RegisterError(body)
    case Some(msg) => Fail(400, msg)
    case None =>
      var email := body.email.value;
      RegisterChecksImplySchema(body);
      LowerIdempotent(email);
      if FindByEmail(users, StoredEmail(ToLower(email))).Some? then Fail(400, EmailTaken)
      else
        var doc := UserDoc(newId, Trim(body.name.value), Trim(ToLower(email)), body.password.value);
        var saved := PreSave(doc, true, hash);
        var u := User(saved.id, saved.name, saved.email, saved.password);
        Ok(Registered(AuthReply(201, "Registration successful", GenerateToken(sign, u.id), ToPublic(u)), users + [u]))
  }

  /** For an address that passed the route's pattern check, the key of the duplicate
      look-up (`email.toLowerCase()`) is the key the user is stored under
      (`email.toLowerCase().trim()`), and the schema's own validators accept the new user:
      its `unique`-index and `ValidationError` branches cannot be reached one request at a
      time. */
  lemma RegisterChecksImplySchema(body: RegisterBody)
    requires RegisterError(body).None?
    ensures StoredEmail(body.email.value) == ToLower(body.email.value)
    ensures SchemaAccepts(StoredName(body.name.value), StoredEmail(body.email.value), body.password.value)
  {
    var e := body.email.value;
    MatchesLower(e);
    MatchesTrimmed(ToLower(e));
    Utf16LengthZero(Trim(body.name.value));
    Utf16LengthZero(body.password.value);
  }

  /** Registration keeps the collection well formed: the new user is valid and its id and
      address are new. */
  lemma RegisterPreservesWellFormed(users: seq<User>, body: RegisterBody, newId: UserId,
                                    hash: string -> string, sign: SignRequest -> string)
    requires WellFormedUsers(users)
    requires FindById(users, newId).None?
    requires Register(users, body, newId, hash, sign).Ok?
    ensures WellFormedUsers(Register(users, body, newId, hash, sign).value.users)
  {
    var e := body.email.value;
    var u := User(newId, Trim(body.name.value), Trim(ToLower(e)), hash(body.password.value));
    RegisteredUserValid(body, newId, hash(body.password.value));
    RegisterChecksImplySchema(body);
    AppendPreservesWellFormed(users, u);
  }

  /** The user a registration that passed the route's checks creates is valid. */
  lemma RegisteredUserValid(body: RegisterBody, id: UserId, passwordHash: string)
    requires RegisterError(body).None?
    ensures ValidUser(User(id, Trim(body.name.value), Trim(ToLower(body.email.value)), passwordHash))
  {
    var e := body.email.value;
    RegisterChecksImplySchema(body);
    TrimIdempotent(body.name.value);
    TrimFixpoint(Trim(body.name.value));
    LowerIdempotent(e);
  }

  /** Appending a valid user with a new id and a new address keeps the invariant. */
  lemma AppendPreservesWellFormed(users: seq<User>, u: User)
    requires WellFormedUsers(users)
    requires ValidUser(u)
    requires FindById(users, u.id).None?
    requires FindByEmail(users, u.email).None?
    ensures WellFormedUsers(users + [u])
  {
    var users' := users + [u];
    assert forall i :: 0 <= i < |users| ==> users'[i] == users[i];
    assert UniqueIds(users');
    assert UniqueEmails(users');
  }

  /** Lower-casing twice is lower-casing once. */
  lemma LowerIdempotent(s: string)
    ensures ToLower(ToLower(s)) == ToLower(s)
  {
  }

  /** An address registered once cannot be registered again in any letter case: the
      second attempt is the duplicate-address 400 and stores nothing. */
  lemma RegisterTwiceAnyCase(users: seq<User>, first: RegisterBody, second: RegisterBody,
                             id1: UserId, id2: UserId, hash: string -> string, sign: SignRequest -> string)
    requires FindById(users, id1).None?
    requires Register(users, first, id1, hash, sign).Ok?
    requires RegisterError(second).None?
    requires ToLower(second.email.value) == ToLower(first.email.value)
    requires FindById(Register(users, first, id1, hash, sign).value.users, id2).None?
    ensures Register(Register(users, first, id1, hash, sign).value.users, second, id2, hash, sign)
            == Fail(400, EmailTaken)
  {
    var users' := Register(users, first, id1, hash, sign).value.users;
    RegisterChecksImplySchema(first);
    assert users'[|users|].email == ToLower(second.email.value);
  }

  datatype LoginBody = LoginBody(email: Option<string>, password: Option<string>)

  /** `POST /api/auth/login`. A missing field is a 400 before any look-up; otherwise the
      user stored under the address must exist (Mongoose casts the filter value through the
      `email` path's `lowercase` and `trim` setters, so the key is the stored form) and the password must match
      its hash, and the two failures are indistinguishable. */
  function Login(users: seq<User>, body: LoginBody, compare: (string, string) -> bool,
                 sign: SignRequest -> string): (r: Result<AuthReply>)
    ensures Falsy(body.email) || Falsy(body.password) ==> r == Fail(400, MissingCredentials)
    ensures !(Falsy(body.email) || Falsy(body.password)) ==>
              && (r.Fail? ==> r == Fail(401, InvalidCredentials))
              && (r.Ok? <==>
                    && FindByEmail(users, StoredEmail(body.email.value)).Some?
                    && compare(body.password.value, FindByEmail(users, StoredEmail(body.email.value)).value.passwordHash))
    ensures r.Ok? ==>
              var u := FindByEmail(users, StoredEmail(body.email.value)).value;
              r.value == AuthReply(200, "Login successful", GenerateToken(sign, u.id), ToPublic(u))
  {
    if Falsy(body.email) || Falsy(body.password) then Fail(400, MissingCredentials)
    else
      match FindByEmail(users, StoredEmail(body.email.value))
      case None => Fail(401, InvalidCredentials)
      case Some(u) =>
        if !ComparePassword(compare, u, body.password.value) then Fail(401, InvalidCredentials)
        else Ok(AuthReply(200, "Login successful", GenerateToken(sign, u.id), ToPublic(u)))
  }

  /** Spaces around the address do not change the answer of login: the filter's `trim`
      setter removes them before the look-up. */
  lemma LoginIgnoresPadding(users: seq<User>, email: string, password: Option<string>,
                            compare: (string, string) -> bool, sign: SignRequest -> string)
    requires email != []
    ensures Login(users, LoginBody(Some(" " + email + " "), password), compare, sign)
            == Login(users, LoginBody(Some(email), password), compare, sign)
  {
    assert ToLower(" " + email + " ") == [' '] + ToLower(email) + [' '];
    TrimPadded(ToLower(email), ' ', ' ');
  }

  /** `GET /api/auth/me`: the same resolution as `requireAuth`, with "No token provided"
      for a missing or non-bearer header, answering with the public view of the user. */
  function Me(header: Option<string>, verify: string -> Verified, users: seq<User>): (r: Result<PublicUser>)
    ensures r.Fail? ==> r.status == 401
    ensures BearerToken(header).None? <==> r == Fail(401, NoToken)
    ensures r == Fail(401, BadToken) <==>
              BearerToken(header).Some? && !verify(BearerToken(header).value).Valid?
    ensures r == Fail(401, UnknownUser) <==>
              && BearerToken(header).Some?
              && verify(BearerToken(header).value).Valid?
              && FindById(users, verify(BearerToken(header).value).payload.id).None?
    ensures r.Ok? <==> RequireAuth(header, verify, users).Next?
    ensures r.Ok? ==> r.value == ToPublic(RequireAuth(header, verify, users).user)
    ensures BearerToken(header).Some? && r.Fail? ==>
              RequireAuth(header, verify, users) == Reject(r.status, r.message)
  {
    match BearerToken(header)
    case None => Fail(401, NoToken)
    case Some(token) =>
      match verify(token)
      case Valid(p) =>
        (match FindById(users, p.id)
         case None => Fail(401, UnknownUser)
         case Some(u) => Ok(ToPublic(u)))
      case _ => Fail(401, BadToken)
  }

  /** A token obtained from login opens `/api/auth/me` for the same user, as long as the
      token verifies to what was signed. */
  lemma LoginTokenOpensMe(users: seq<User>, body: LoginBody, compare: (string, string) -> bool,
                          sign: SignRequest -> string, verify: string -> Verified)
    requires UniqueIds(users)
    requires VerifiesOwnTokens(sign, verify)
    requires Login(users, body, compare, sign).Ok?
    ensures Me(Some(BearerPrefix + Login(users, body, compare, sign).value.token), verify, users)
            == Ok(Login(users, body, compare, sign).value.user)
  {
    var reply := Login(users, body, compare, sign).value;
    var u := FindByEmail(users, StoredEmail(body.email.value)).value;
    var req := SignRequest(Payload(u.id), TokenLifetime);
    assert reply.token == sign(req);
    BearerRoundTrip(reply.token);
    var k :| 0 <= k < |users| && users[k] == u;
    FindByIdUnique(users, k);
  }
}
