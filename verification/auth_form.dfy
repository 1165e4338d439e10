/** The sign-in / sign-up form: `validateForm` turns the three fields into a record of
    per-field messages, and both submit actions stop before any request while it has one. */
module AuthForm {
  import opened Common
  import opened Backend
  import opened Validation

  datatype Form = Form(email: string, password: string, confirmPassword: string)

  /** `FormErrors`: one optional message per field. */
  datatype FormErrors = FormErrors(email: Option<string>, password: Option<string>, confirmPassword: Option<string>)
  {
    /** `Object.keys(errors).length === 0` */
    predicate IsEmpty()
    {
      email.None? && password.None? && confirmPassword.None?
    }
  }

  /** The result of `validateForm`: the errors it stores and the verdict it returns. */
  datatype Checked = Checked(errors: FormErrors, valid: bool)

  const EmailRequired := "Email is required"
  const EmailInvalid := "Please enter a valid email address"
  const PasswordRequired := "Password is required"
  const PasswordsDiffer := "Passwords do not match"

  function EmailError(email: string): (r: Option<string>)
    ensures r.None? <==> EmailPattern(email)
    ensures email == "" ==> r == Some(EmailRequired)
    ensures email != "" && r.Some? ==> r == Some(EmailInvalid)
  {
    if email == "" then Some(EmailRequired)
    else if !ValidateEmail(email) then Some(EmailInvalid)
    else None
  }

  function PasswordError(password: string): (r: Option<string>)
    ensures r.None? <==> JsLength(password) >= 8 && HasUpper(password) && HasLower(password) && HasDigit(password)
    ensures password == "" ==> r == Some(PasswordRequired)
    ensures password != "" && r.Some? ==> r == Some(PasswordRequirements())
  {
    if password == "" then Some(PasswordRequired)
    else if !ValidatePassword(password) then Some(PasswordRequirements())
    else None
  }

  function ConfirmPasswordError(password: string, confirmPassword: string): (r: Option<string>)
    ensures r.Some? <==> confirmPassword != "" && confirmPassword != password
    ensures r.Some? ==> r.value == PasswordsDiffer
  {
    if confirmPassword != "" && !ValidateConfirmPassword(password, confirmPassword) then Some(PasswordsDiffer)
    else None
  }

  /** `validateForm`: each field's message depends only on the fields named in its
      signature, and the form is valid exactly when no message was set. */
  function ValidateForm(form: Form): (r: Checked)
    ensures r.errors.email == EmailError(form.email)
    ensures r.errors.password == PasswordError(form.password)
    ensures r.errors.confirmPassword == ConfirmPasswordError(form.password, form.confirmPassword)
    ensures r.valid <==> r.errors.IsEmpty()
  {
    var errors := FormErrors(
      EmailError(form.email),
      PasswordError(form.password),
      ConfirmPasswordError(form.password, form.confirmPassword));
    Checked(errors, errors.IsEmpty())
  }

  /** The form passes exactly when the address is in the language of the e-mail pattern, the
      password is strong, and the confirmation is empty or equal to the password. */
  lemma ValidFormExactly(form: Form)
    ensures ValidateForm(form).valid <==>
      && EmailPattern(form.email)
      && ValidatePassword(form.password)
      && (form.confirmPassword == "" || form.confirmPassword == form.password)
  {
  }

  /** An empty confirmation never produces an error, whatever the password. */
  lemma EmptyConfirmNeverErrs(email: string, password: string)
    ensures ValidateForm(Form(email, password, "")).errors.confirmPassword.None?
  {
  }

  /** The unit tests' forms: all empty gives both "required" messages; an address without
      '@' is invalid; differing passwords do not match. */
  lemma FormExamples()
    ensures ValidateForm(Form("", "", "")) ==
      Checked(FormErrors(Some(EmailRequired), Some(PasswordRequired), None), false)
    ensures ValidateForm(Form("invalid-email", "", "")).errors.email == Some(EmailInvalid)
    ensures ValidateForm(Form("", "Password123!", "DifferentPassword123!")).errors.confirmPassword == Some(PasswordsDiffer)
  {
    InvalidEmailExample();
  }

  /** What pressing a submit button does before its request: stop with the form's errors
      shown, or send the request. */
  datatype Attempt = Blocked(errors: FormErrors) | Sent(request: Request)

  /** The guard at the top of `signInWithEmail`. */
  function SignIn(form: Form): (r: Attempt)
    ensures r.Blocked? <==> !ValidateForm(form).valid
    ensures r.Blocked? ==> r.errors == ValidateForm(form).errors
    ensures r.Sent? ==> r.request == SignInRequest(form.email, form.password)
  {
    var checked := ValidateForm(form);
    if !checked.valid then Blocked(checked.errors) else Sent(SignInRequest(form.email, form.password))
  }

  /** The guard at the top of `signUpWithEmail`. */
  function SignUp(form: Form): (r: Attempt)
    ensures r.Blocked? <==> !ValidateForm(form).valid
    ensures r.Blocked? ==> r.errors == ValidateForm(form).errors
    ensures r.Sent? ==> r.request == SignUpRequest(form.email, form.password)
  {
    var checked := ValidateForm(form);
    if !checked.valid then Blocked(checked.errors) else Sent(SignUpRequest(form.email, form.password))
  }

  /** A request only ever leaves with a well-formed address and a strong password. */
  lemma SentRequestsCarryValidCredentials(form: Form)
    ensures SignIn(form).Sent? || SignUp(form).Sent? ==>
      EmailPattern(form.email) && ValidatePassword(form.password)
  {
    ValidFormExactly(form);
  }
}
