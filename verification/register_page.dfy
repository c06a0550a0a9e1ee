/** The registration form's submit handler. */
module RegisterPage {
  import opened Wrappers
  import opened JsText
  import opened EmailPattern
  import opened UserModel
  import opened Tokens
  import AuthRoutes
  import AuthContext

  const PasswordsDiffer: string := "Passwords do not match"

  /** The four controlled inputs; each is a string, empty until typed into. */
  datatype RegisterInput = RegisterInput(name: string, email: string, password: string, confirm: string)

  /** What a submit does: show one message, or call `register` with these arguments. */
  datatype Submit = ShowError(message: string) | CallRegister(name: string, email: string, password: string)

  /** `handleSubmit`: name, email, password length, then confirmation, stopping at the first
      failure; on success the name is sent trimmed and the email and password as typed. */
  function HandleSubmit(input: RegisterInput): (r: Submit)
    ensures r.CallRegister? <==>
              && Utf16Length(Trim(input.name)) >= MinNameLength
              && Matches(input.email)
              && Utf16Length(input.password) >= MinPasswordLength
              && input.password == input.confirm
    ensures r.CallRegister? ==>
              r.name == Trim(input.name) && r.email == input.email && r.password == input.password
    ensures r == ShowError(AuthRoutes.NameTooShort) <==>
              input.name == [] || Utf16Length(Trim(input.name)) < 2
    ensures r == ShowError(AuthRoutes.InvalidEmail) <==>
              && !(input.name == [] || Utf16Length(Trim(input.name)) < 2)
              && (input.email == [] || !Matches(input.email))
    ensures r == ShowError(AuthRoutes.PasswordTooShort) <==>
              && !(input.name == [] || Utf16Length(Trim(input.name)) < 2)
              && !(input.email == [] || !Matches(input.email))
              && (input.password == [] || Utf16Length(input.password) < 6)
    ensures r == ShowError(PasswordsDiffer) <==>
              && !(input.name == [] || Utf16Length(Trim(input.name)) < 2)
              && !(input.email == [] || !Matches(input.email))
              && !(input.password == [] || Utf16Length(input.password) < 6)
              && input.password != input.confirm
  {
    if input.name == [] || Utf16Length(Trim(input.name)) < MinNameLength then ShowError(AuthRoutes.NameTooShort)
    else if input.email == [] || !Matches(input.email) then ShowError(AuthRoutes.InvalidEmail)
    else if input.password == [] || Utf16Length(input.password) < MinPasswordLength then ShowError(AuthRoutes.PasswordTooShort)
    else if input.password != input.confirm then ShowError(PasswordsDiffer)
    else CallRegister(Trim(input.name), input.email, input.password)
  }

  /** The request body `register` posts. */
  function RequestBody(r: Submit): AuthRoutes.RegisterBody
    requires r.CallRegister?
  {
    AuthRoutes.RegisterBody(Some(r.name), Some(r.email), Some(r.password))
  }

  /** The form and the server apply the same three rules in the same order with the same
      messages, and the form checks the confirmation only after them: the form shows exactly
      the error the server would send for the raw input, and when the server would send none
      the form either sends the request or reports the mismatched confirmation. A request
      the form sends passes the server's checks. */
  lemma FormAgreesWithServer(input: RegisterInput)
    ensures var raw := AuthRoutes.RegisterBody(Some(input.name), Some(input.email), Some(input.password));
            match AuthRoutes.RegisterError(raw)
            case None =>
              if input.password == input.confirm then HandleSubmit(input).CallRegister?
              else HandleSubmit(input) == ShowError(PasswordsDiffer)
            case Some(m) => HandleSubmit(input) == ShowError(m)
    ensures HandleSubmit(input).CallRegister? ==>
              AuthRoutes.RegisterError(RequestBody(HandleSubmit(input))).None?
  {
    Utf16LengthZero(input.name);
    Utf16LengthZero(Trim(input.name));
    Utf16LengthZero(input.password);
    TrimIdempotent(input.name);
    if Matches(input.email) {
      assert input.email != [];
    }
  }

  /** A submit the page accepts, for an address nobody holds in any letter case, creates the
      account and signs the visitor in as the user with the trimmed name and the lower-cased
      address. */
  lemma AcceptedSubmitSignsIn(input: RegisterInput, s: AuthContext.Session, users: seq<User>,
                              newId: UserId, hash: string -> string, sign: SignRequest -> string)
    requires FindById(users, newId).None?
    requires HandleSubmit(input).CallRegister?
    requires FindByEmail(users, ToLower(input.email)).None?
    ensures var server := AuthRoutes.Register(users, RequestBody(HandleSubmit(input)), newId, hash, sign);
            && server.Ok?
            && AuthContext.Register(s, AuthContext.RegisteredResponse(server)).thrown.None?
            && AuthContext.Register(s, AuthContext.RegisteredResponse(server)).session.user
               == Some(PublicUser(newId, Trim(input.name), ToLower(input.email)))
  {
    var body := RequestBody(HandleSubmit(input));
    FormAgreesWithServer(input);
    AuthRoutes.RegisterChecksImplySchema(body);
    TrimIdempotent(input.name);
  }
}
