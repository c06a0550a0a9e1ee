/** The two authentication gates placed in front of the story routes. */
module AuthMiddleware {
  import opened Wrappers
  import opened UserModel
  import opened Tokens

  const AuthRequired: string := "Authentication required"
  const BadToken: string := "Invalid or expired token"
  const UnknownUser: string := "User not found"

  /** What a gate does with a request: answer it with an error (the handler never runs), or
      call `next` once with `req.user` set. */
  datatype Gate = Reject(status: nat, message: string) | Next(user: User)

  /** `requireAuth`: a well-formed bearer header, a token that verifies, and a user that still
      exists, in that order; the first that fails decides the 401 message. */
  function RequireAuth(header: Option<string>, verify: string -> Verified, users: seq<User>): (g: Gate)
    ensures g.Reject? ==> g.status == 401
    ensures BearerToken(header).None? <==> g == Reject(401, AuthRequired)
    ensures g == Reject(401, BadToken) <==>
              BearerToken(header).Some? && !verify(BearerToken(header).value).Valid?
    ensures g == Reject(401, UnknownUser) <==>
              && BearerToken(header).Some?
              && verify(BearerToken(header).value).Valid?
              && FindById(users, verify(BearerToken(header).value).payload.id).None?
    ensures g.Next? <==>
              && BearerToken(header).Some?
              && verify(BearerToken(header).value).Valid?
              && FindById(users, verify(BearerToken(header).value).payload.id).Some?
    ensures g.Next? ==> g.user in users && g.user.id == verify(BearerToken(header).value).payload.id
  {
    match BearerToken(header)
    case None => Reject(401, AuthRequired)
    case Some(token) =>
      match verify(token)
      case Valid(p) =>
        (match FindById(users, p.id)
         case None => Reject(401, UnknownUser)
         case Some(u) => Next(u))
      case _ => Reject(401, BadToken)
  }

  /** `optionalAuth`: the same resolution, but every failure is swallowed and `next` is
      always called; the result is what `req.user` holds. It holds a user exactly when
      `requireAuth` would have let the request through, and then the same user. */
  function OptionalAuth(header: Option<string>, verify: string -> Verified, users: seq<User>): (u: Option<User>)
    ensures u.Some? <==> RequireAuth(header, verify, users).Next?
    ensures u.Some? ==> u.value == RequireAuth(header, verify, users).user
  {
    match BearerToken(header)
    case None => None
    case Some(token) =>
      match verify(token)
      case Valid(p) => FindById(users, p.id)
      case _ => None
  }
}
