/** The client's session provider: the token, the signed-in user and the loading flag,
    together with the `rehla_token` entry of local storage they are kept in step with.
    Server responses are inputs to the transitions. */
module AuthContext {
  import opened Wrappers
  import opened UserModel
  import opened Tokens
  import AuthRoutes

  const LoginFallback: string := "Login failed"
  const RegisterFallback: string := "Registration failed"

  /** The provider's state and the stored token. */
  datatype Session = Session(token: Option<string>, user: Option<PublicUser>, loading: bool,
                             storedToken: Option<string>)

  /** `isAuthenticated`: a user is loaded. */
  predicate IsAuthenticated(s: Session) {
    s.user.Some?
  }

  /** The first render: the token read from storage, no user yet, still loading. */
  function Init(stored: Option<string>): (s: Session)
    ensures s.token == stored && s.storedToken == stored
    ensures !IsAuthenticated(s) && s.loading
  {
    Session(stored, None, true, stored)
  }

  /** How the `/api/auth/me` request ended. */
  datatype MeOutcome = MeOk(user: PublicUser) | MeRejected | NetworkError

  /** The outcome the client sees for a server answer. */
  function OutcomeOf(r: Result<PublicUser>): MeOutcome {
    match r
    case Ok(u) => MeOk(u)
    case Fail(_, _) => MeRejected
  }

  /** The header the check sends. */
  function MeHeader(token: string): Option<string> {
    Some(BearerPrefix + token)
  }

  /** `checkAuth`. Without a token nothing is requested. An accepted token loads the user; a
      rejected one is forgotten in storage and in state; a failed request changes nothing.
      Loading ends in every case. */
  function CheckAuth(s: Session, outcome: MeOutcome): (r: Session)
    ensures !r.loading
    ensures Falsy(s.token) ==> r == s.(loading := false)
    ensures !Falsy(s.token) && outcome.MeOk? ==> r.user == Some(outcome.user) && r.token == s.token
    ensures !Falsy(s.token) && outcome.MeRejected? ==>
              r.token.None? && r.storedToken.None? && r.user == s.user
    ensures !Falsy(s.token) && outcome.NetworkError? ==> r == s.(loading := false)
    ensures r.storedToken == s.storedToken || r.storedToken.None?
  {
    if Falsy(s.token) then s.(loading := false)
    else match outcome
      case MeOk(u) => s.(user := Some(u), loading := false)
      case MeRejected => s.(token := None, storedToken := None, loading := false)
      case NetworkError => s.(loading := false)
  }

  /** The body of a login or register response. */
  datatype AuthResponse = Success(token: string, user: PublicUser) | Failure(message: Option<string>)

  /** What the client reads from the server's reply. */
  function ResponseOf(r: Result<AuthRoutes.AuthReply>): AuthResponse {
    match r
    case Ok(reply) => Success(reply.token, reply.user)
    case Fail(_, message) => Failure(Some(message))
  }

  /** What the client reads from the server's registration reply. */
  function RegisteredResponse(r: Result<AuthRoutes.Registered>): AuthResponse {
    match r
    case Ok(registered) => Success(registered.reply.token, registered.reply.user)
    case Fail(_, message) => Failure(Some(message))
  }

  /** A login or register call: the session after it, and the message thrown, if any. */
  datatype Attempt = Attempt(session: Session, thrown: Option<string>)

  /** The shared tail of `login` and `register`: store the token in storage and state and
      set the user, or throw the server's message (or the fallback) and change nothing. */
  function SignIn(s: Session, response: AuthResponse, fallback: string): (a: Attempt)
    ensures response.Success? ==>
              && a.thrown.None?
              && a.session.token == Some(response.token) && a.session.storedToken == Some(response.token)
              && a.session.user == Some(response.user) && a.session.loading == s.loading
    ensures response.Failure? ==> a.session == s && a.thrown.Some?
    ensures response.Failure? && Falsy(response.message) ==> a.thrown == Some(fallback)
    ensures response.Failure? && !Falsy(response.message) ==> a.thrown == response.message
  {
    match response
    case Success(token, user) =>
      Attempt(s.(token := Some(token), storedToken := Some(token), user := Some(user)), None)
    case Failure(message) =>
      Attempt(s, Some(if Falsy(message) then fallback else message.value))
  }

  /** `login`: sign in with the reply of `POST /api/auth/login`. */
  function Login(s: Session, response: AuthResponse): (a: Attempt)
    ensures IsAuthenticated(a.session) <==> response.Success? || IsAuthenticated(s)
    ensures response.Failure? ==> a.session == s
    ensures response.Failure? && Falsy(response.message) ==> a.thrown == Some(LoginFallback)
  {
    SignIn(s, response, LoginFallback)
  }

  /** `register`: sign in with the reply of `POST /api/auth/register`. */
  function Register(s: Session, response: AuthResponse): (a: Attempt)
    ensures IsAuthenticated(a.session) <==> response.Success? || IsAuthenticated(s)
    ensures response.Failure? ==> a.session == s
    ensures response.Failure? && Falsy(response.message) ==> a.thrown == Some(RegisterFallback)
  {
    SignIn(s, response, RegisterFallback)
  }

  /** `logout`: forget the token in storage and state, and the user. */
  function Logout(s: Session): (r: Session)
    ensures !IsAuthenticated(r) && r.token.None? && r.storedToken.None?
    ensures r.loading == s.loading
  {
    s.(token := None, storedToken := None, user := None)
  }

  /** A login the server accepts signs the client in; the token then survives the check
      against `/api/auth/me`, which loads the same user, and a reload from storage gets
      there as well. */
  lemma LoginSurvivesCheck(s: Session, users: seq<User>, body: AuthRoutes.LoginBody,
                           compare: (string, string) -> bool, sign: SignRequest -> string,
                           verify: string -> Verified)
    requires UniqueIds(users)
    requires VerifiesOwnTokens(sign, verify)
    requires AuthRoutes.Login(users, body, compare, sign).Ok?
    ensures var reply := AuthRoutes.Login(users, body, compare, sign).value;
            var a := Login(s, ResponseOf(AuthRoutes.Login(users, body, compare, sign)));
            && a.thrown.None?
            && CheckAuth(a.session, OutcomeOf(AuthRoutes.Me(MeHeader(reply.token), verify, users))).user
               == Some(reply.user)
            && CheckAuth(Init(a.session.storedToken), OutcomeOf(AuthRoutes.Me(MeHeader(reply.token), verify, users))).user
               == Some(reply.user)
  {
    AuthRoutes.LoginTokenOpensMe(users, body, compare, sign, verify);
  }

  /** A stored token the server no longer accepts signs the client out for good: the next
      check, run because the token changed, sends nothing. */
  lemma RejectedTokenIsForgotten(stored: string, outcome2: MeOutcome)
    requires stored != []
    ensures var r := CheckAuth(Init(Some(stored)), MeRejected);
            && !IsAuthenticated(r) && r.storedToken.None?
            && CheckAuth(r, outcome2) == r
  {
  }

  /** A failed login keeps whatever session there was, and the server's uniform message
      for an unknown address or a wrong password is what the page shows. */
  lemma FailedLoginKeepsSession(s: Session, users: seq<User>, body: AuthRoutes.LoginBody,
                                compare: (string, string) -> bool, sign: SignRequest -> string)
    requires body.email.Some? && body.email.value != [] && body.password.Some? && body.password.value != []
    requires AuthRoutes.Login(users, body, compare, sign).Fail?
    ensures var a := Login(s, ResponseOf(AuthRoutes.Login(users, body, compare, sign)));
            a.session == s && a.thrown == Some(AuthRoutes.InvalidCredentials)
  {
  }
}
