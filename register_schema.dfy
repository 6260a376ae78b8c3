/** `registerSchema`: a well-formed email, a password and its confirmation
    of at least 6 characters each, accepted policies, and, checked last on
    the whole object, a confirmation equal to the password. */
module RegisterSchema {
  import opened Wrappers
  import opened ZodFields

  const EMAIL_REQUIRED: string := "E-posta adresi zorunludur."
  const EMAIL_INVALID: string := "Gecerli bir e-posta adresi giriniz."
  const PASSWORD_REQUIRED: string := "Parola zorunludur."
  const PASSWORD_TOO_SHORT: string := "Parolaniz en az 6 karakter olmalidir."
  const CONFIRM_REQUIRED: string := "Parola dogrulamasi zorunludur."
  const CONFIRM_TOO_SHORT: string := "Parola dogrulamasi en az 6 karakter olmalidir."
  const POLICIES_NOT_ACCEPTED: string := "Kullanim kosullarini onaylamaniz gerekir."
  const PASSWORDS_DIFFER: string := "Parolalar eslesmiyor."

  datatype RegisterInput = RegisterInput(email: Value, password: Value, confirmPassword: Value, acceptPolicies: Value)
  datatype RegisterData = RegisterData(email: string, password: string, confirmPassword: string, acceptPolicies: bool)

  /** `z.boolean().refine((value) => value, ...)`. */
  function AcceptPoliciesField(v: Value): (r: Field<bool>)
    ensures r.value.Some? <==> v.Bool?
    ensures r.issues == [] <==> v == Bool(true)
    ensures v == Bool(false) ==> r.issues == [Issue("acceptPolicies", Some(POLICIES_NOT_ACCEPTED))]
  {
    match v
    case Bool(b) => Field(Some(b), if b then [] else [Issue("acceptPolicies", Some(POLICIES_NOT_ACCEPTED))])
    case _ => Field(None, [TypeIssue("acceptPolicies", v, None)])
  }

  /** `registerSchema.safeParse`, with zod's email format check as
      `isEmail`. The object-level refinement runs only when no field
      aborted, and then adds its issue on `confirmPassword`. */
  function ParseRegister(isEmail: string -> bool, input: RegisterInput): Result<RegisterData, seq<Issue>> {
    var email := StringField("email", input.email, EMAIL_REQUIRED, isEmail, EMAIL_INVALID);
    var password := StringField("password", input.password, PASSWORD_REQUIRED, s => |s| >= 6, PASSWORD_TOO_SHORT);
    var confirm := StringField("confirmPassword", input.confirmPassword, CONFIRM_REQUIRED, s => |s| >= 6, CONFIRM_TOO_SHORT);
    var accept := AcceptPoliciesField(input.acceptPolicies);
    var fieldIssues := email.issues + password.issues + confirm.issues + accept.issues;
    if email.value.None? || password.value.None? || confirm.value.None? || accept.value.None? then
      Failure(fieldIssues)
    else
      var issues := fieldIssues +
        (if password.value.value == confirm.value.value then [] else [Issue("confirmPassword", Some(PASSWORDS_DIFFER))]);
      if issues == [] then
        Success(RegisterData(email.value.value, password.value.value, confirm.value.value, accept.value.value))
      else Failure(issues)
  }

  /** The input is accepted exactly when the email passes the format
      check, both passwords have at least 6 characters and are equal, and
      the policies are accepted; the data is then the input as given. */
  lemma ParseRegisterSpec(isEmail: string -> bool, input: RegisterInput)
    ensures ParseRegister(isEmail, input).Success? <==>
      && input.email.Str? && isEmail(input.email.s)
      && input.password.Str? && |input.password.s| >= 6
      && input.confirmPassword.Str? && |input.confirmPassword.s| >= 6
      && input.acceptPolicies == Bool(true)
      && input.password.s == input.confirmPassword.s
    ensures ParseRegister(isEmail, input).Success? ==>
      ParseRegister(isEmail, input).value ==
        RegisterData(input.email.s, input.password.s, input.confirmPassword.s, true)
  {
  }

  /** A mismatch is reported on `confirmPassword`, also alongside other
      failed checks, but only once every field has the right type: a missing
      or mistyped field stops the comparison. */
  lemma PasswordMismatch(isEmail: string -> bool, input: RegisterInput)
    ensures (&& input.email.Str? && input.password.Str? && input.confirmPassword.Str? && input.acceptPolicies.Bool?
             && input.password.s != input.confirmPassword.s) ==>
      && ParseRegister(isEmail, input).Failure?
      && Issue("confirmPassword", Some(PASSWORDS_DIFFER)) in ParseRegister(isEmail, input).error
    ensures !(input.email.Str? && input.password.Str? && input.confirmPassword.Str? && input.acceptPolicies.Bool?) ==>
      && ParseRegister(isEmail, input).Failure?
      && Issue("confirmPassword", Some(PASSWORDS_DIFFER)) !in ParseRegister(isEmail, input).error
  {
  }

  /** Each failing field reports its own message on its own path. */
  lemma ParseRegisterIssues(isEmail: string -> bool, input: RegisterInput)
    ensures input.email.Str? && !isEmail(input.email.s) ==>
      ParseRegister(isEmail, input).Failure? && Issue("email", Some(EMAIL_INVALID)) in ParseRegister(isEmail, input).error
    ensures input.password.Str? && |input.password.s| < 6 ==>
      ParseRegister(isEmail, input).Failure? && Issue("password", Some(PASSWORD_TOO_SHORT)) in ParseRegister(isEmail, input).error
    ensures input.confirmPassword.Str? && |input.confirmPassword.s| < 6 ==>
      ParseRegister(isEmail, input).Failure? &&
      Issue("confirmPassword", Some(CONFIRM_TOO_SHORT)) in ParseRegister(isEmail, input).error
    ensures input.acceptPolicies == Bool(false) ==>
      ParseRegister(isEmail, input).Failure? &&
      Issue("acceptPolicies", Some(POLICIES_NOT_ACCEPTED)) in ParseRegister(isEmail, input).error
    ensures input.email == Undefined ==>
      ParseRegister(isEmail, input).Failure? && Issue("email", Some(EMAIL_REQUIRED)) in ParseRegister(isEmail, input).error
    ensures input.password == Undefined ==>
      ParseRegister(isEmail, input).Failure? &&
      Issue("password", Some(PASSWORD_REQUIRED)) in ParseRegister(isEmail, input).error
    ensures input.confirmPassword == Undefined ==>
      ParseRegister(isEmail, input).Failure? &&
      Issue("confirmPassword", Some(CONFIRM_REQUIRED)) in ParseRegister(isEmail, input).error
  {
  }
}
