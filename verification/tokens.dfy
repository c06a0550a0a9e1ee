/** Bearer tokens: what the server signs, how a request presents it, and the
    verification oracle. Signing and verification belong to the JWT library and are
    parameters here. */
module Tokens {
  import opened Wrappers
  import opened JsText
  import opened UserModel

  /** `JWT_EXPIRES_IN = "7d"`, in seconds. */
  const TokenLifetime: nat := 7 * 24 * 60 * 60

  /** The signed claims: `{ id: userId }`. */
  datatype Payload = Payload(id: UserId)

  /** One call of `jwt.sign(payload, secret, { expiresIn })`. */
  datatype SignRequest = SignRequest(payload: Payload, expiresIn: nat)

  /** What `jwt.verify` yields: the decoded claims, or the library's `JsonWebTokenError`
      (`Invalid`) or `TokenExpiredError` (`Expired`). */
  datatype Verified = Valid(payload: Payload) | Invalid | Expired

  /** `generateToken`: a token for `{ id: userId }` that expires after seven days. */
  function GenerateToken(sign: SignRequest -> string, userId: UserId): (t: string)
    ensures exists r: SignRequest :: t == sign(r) && r.payload.id == userId && r.expiresIn == 604800
  {
    var r := SignRequest(Payload(userId), TokenLifetime);
    assert r.expiresIn == 604800;
    sign(r)
  }

  /** The assumption under which a token the server issued is accepted again: it verifies
      to the claims it was signed with (it is presented within its lifetime and the secret
      is unchanged), and, being a JWT, it is not empty and contains no space. */
  ghost predicate VerifiesOwnTokens(sign: SignRequest -> string, verify: string -> Verified) {
    forall r :: verify(sign(r)) == Valid(r.payload) && sign(r) != [] && ' ' !in sign(r)
  }

  const BearerPrefix: string := "Bearer "

  /** The token of an `Authorization` header: present only when the header starts, case
      sensitively, with `"Bearer "`, and then the second space-separated field
      (`authHeader.split(" ")[1]`), which may be empty. */
  function BearerToken(header: Option<string>): (t: Option<string>)
    ensures t.Some? <==> header.Some? && StartsWith(header.value, BearerPrefix)
    ensures t.Some? ==> ' ' !in t.value
    ensures t.Some? ==> StartsWith(header.value, BearerPrefix + t.value)
    ensures t.Some? ==> header.value == BearerPrefix + t.value
                        || StartsWith(header.value, BearerPrefix + t.value + " ")
  {
    if header.Some? && StartsWith(header.value, BearerPrefix) then
      var h := header.value;
      assert h == "Bearer" + [' '] + h[7..];
      SplitCons("Bearer", h[7..], ' ');
      var rest := Split(h[7..], ' ');
      JoinSplit(h[7..], ' ');
      assert h == BearerPrefix + rest[0] || h == BearerPrefix + rest[0] + " " + Join(rest[1..], ' ');
      Some(rest[0])
    else
      None
  }

  /** The client's `Bearer ${token}` header gives the server back exactly that token. */
  lemma BearerRoundTrip(token: string)
    requires ' ' !in token
    ensures BearerToken(Some(BearerPrefix + token)) == Some(token)
  {
    var h := BearerPrefix + token;
    assert h[7..] == token;
    SplitNoSep(token, ' ');
  }
}
