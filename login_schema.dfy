/** `loginSchema`: an email of at least 4 characters, a password of at
    least 6, and an optional `rememberMe` flag that defaults to false. */
module LoginSchema {
  import opened Wrappers
  import opened ZodFields

  const EMAIL_REQUIRED: string := "E-posta adresi zorunludur."
  const EMAIL_TOO_SHORT: string := "En az 4 karakter giriniz."
  const PASSWORD_REQUIRED: string := "Parola zorunludur."
  const PASSWORD_TOO_SHORT: string := "Parolan\U{0131}z en az 6 karakter olmal\U{0131}d\U{0131}r."

  datatype LoginInput = LoginInput(email: Value, password: Value, rememberMe: Value)
  datatype LoginData = LoginData(email: string, password: string, rememberMe: bool)

  /** `z.boolean().default(false)`: only a missing value takes the default. */
  function RememberMeField(v: Value): (r: Field<bool>)
    ensures r.value.Some? <==> (v.Undefined? || v.Bool?)
    ensures r.issues == [] <==> r.value.Some?
  {
    match v
    case Undefined => Field(Some(false), [])
    case Bool(b) => Field(Some(b), [])
    case _ => Field(None, [TypeIssue("rememberMe", v, None)])
  }

  /** `loginSchema.safeParse`: the parsed data, or every field's issues in
      field order. */
  function ParseLogin(input: LoginInput): Result<LoginData, seq<Issue>> {
    var email := StringField("email", input.email, EMAIL_REQUIRED, s => |s| >= 4, EMAIL_TOO_SHORT);
    var password := StringField("password", input.password, PASSWORD_REQUIRED, s => |s| >= 6, PASSWORD_TOO_SHORT);
    var rememberMe := RememberMeField(input.rememberMe);
    var issues := email.issues + password.issues + rememberMe.issues;
    if issues == [] then Success(LoginData(email.value.value, password.value.value, rememberMe.value.value))
    else Failure(issues)
  }

  /** The input is accepted exactly when the email has at least 4
      characters (no format check), the password at least 6, and
      `rememberMe` is missing or a boolean; the data then holds the two
      strings and the flag, false when it was missing. */
  lemma ParseLoginSpec(input: LoginInput)
    ensures ParseLogin(input).Success? <==>
      && input.email.Str? && |input.email.s| >= 4
      && input.password.Str? && |input.password.s| >= 6
      && (input.rememberMe.Undefined? || input.rememberMe.Bool?)
    ensures ParseLogin(input).Success? ==>
      ParseLogin(input).value ==
        LoginData(input.email.s, input.password.s, if input.rememberMe.Bool? then input.rememberMe.b else false)
  {
  }

  /** Each failing field reports its own message on its own path. */
  lemma ParseLoginIssues(input: LoginInput)
    ensures input.email == Undefined ==>
      ParseLogin(input).Failure? && Issue("email", Some(EMAIL_REQUIRED)) in ParseLogin(input).error
    ensures input.email.Str? && |input.email.s| < 4 ==>
      ParseLogin(input).Failure? && Issue("email", Some(EMAIL_TOO_SHORT)) in ParseLogin(input).error
    ensures input.password == Undefined ==>
      ParseLogin(input).Failure? && Issue("password", Some(PASSWORD_REQUIRED)) in ParseLogin(input).error
    ensures input.password.Str? && |input.password.s| < 6 ==>
      ParseLogin(input).Failure? && Issue("password", Some(PASSWORD_TOO_SHORT)) in ParseLogin(input).error
    ensures ParseLogin(input).Failure? ==> forall i :: i in ParseLogin(input).error ==> i.path in {"email", "password", "rememberMe"}
  {
  }
}
