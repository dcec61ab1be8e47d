/** The sign-up form (frontend_react/src/components/auth/SignupForm.js): the
    field-update handler, the ordered validation guards in front of the
    `signup` call, and the choice of the message shown when the server
    refuses the registration. */
module SignupForm {
  import opened Common

  datatype Form = Form(username: string, email: string, password: string, passwordConfirm: string)

  /** The inputs of the form, by their `name` attribute. */
  datatype Field = Username | Email | Password | PasswordConfirm

  const InitialForm: Form := Form("", "", "", "")

  function Get(form: Form, field: Field): string {
    match field
    case Username => form.username
    case Email => form.email
    case Password => form.password
    case PasswordConfirm => form.passwordConfirm
  }

  /** `handleChange`: the named field takes the new value. */
  function HandleChange(form: Form, field: Field, value: string): (r: Form)
    ensures Get(r, field) == value
    ensures forall f :: f != field ==> Get(r, f) == Get(form, f)
  {
    match field
    case Username => form.(username := value)
    case Email => form.(email := value)
    case Password => form.(password := value)
    case PasswordConfirm => form.(passwordConfirm := value)
  }

  /** Writing the same value twice, or writing two different fields in
      either order, gives the same form. */
  lemma HandleChangeCommutes(form: Form, f: Field, g: Field, u: string, v: string)
    ensures HandleChange(HandleChange(form, f, u), f, u) == HandleChange(form, f, u)
    ensures f != g ==>
      HandleChange(HandleChange(form, f, u), g, v) == HandleChange(HandleChange(form, g, v), f, u)
  {
  }

  const FillMessage: string := "Please fill all fields."
  const MismatchMessage: string := "Passwords do not match."
  const ShortMessage: string := "Password must be at least 8 characters."
  const MinPasswordLength: nat := 8

  /** What `signup` receives: the fields as typed, untrimmed, without the
      confirmation. */
  datatype SignupRequest = SignupRequest(username: string, email: string, password: string)

  datatype Check = Rejected(message: string) | CallSignup(request: SignupRequest)

  /** The first guard: a username or email that trims to nothing, or an
      empty password or confirmation. */
  predicate Unfilled(form: Form) {
    JsTrim(form.username) == "" || JsTrim(form.email) == "" || form.password == "" || form.passwordConfirm == ""
  }

  /** The guards of `handleSubmit`, in order. */
  function Validate(form: Form): Check {
    if Unfilled(form) then Rejected(FillMessage)
    else if form.password != form.passwordConfirm then Rejected(MismatchMessage)
    else if |form.password| < MinPasswordLength then Rejected(ShortMessage)
    else CallSignup(SignupRequest(form.username, form.email, form.password))
  }

  /** Each message appears exactly when its guard fails and every earlier
      one passed; `signup` is called exactly when all pass, with the fields
      untouched. A username or email counts as blank when it is whitespace
      only. */
  lemma ValidateSpec(form: Form)
    ensures Unfilled(form) <==>
      AllSpace(form.username, IsJsSpace) || AllSpace(form.email, IsJsSpace)
      || form.password == [] || form.passwordConfirm == []
    ensures Validate(form) == Rejected(FillMessage) <==> Unfilled(form)
    ensures Validate(form) == Rejected(MismatchMessage) <==>
      !Unfilled(form) && form.password != form.passwordConfirm
    ensures Validate(form) == Rejected(ShortMessage) <==>
      !Unfilled(form) && form.password == form.passwordConfirm && |form.password| < MinPasswordLength
    ensures Validate(form).CallSignup? <==>
      !Unfilled(form) && form.password == form.passwordConfirm && |form.password| >= MinPasswordLength
    ensures Validate(form).CallSignup? ==>
      Validate(form).request == SignupRequest(form.username, form.email, form.password)
  {
  }

  /** The validation errors of a refused registration, per field; `None` is
      a field the response does not mention (a missing response body
      mentions none). */
  datatype ServerErrors = ServerErrors(
    email: Option<seq<string>>,
    username: Option<seq<string>>,
    password: Option<seq<string>>,
    nonFieldErrors: Option<seq<string>>)

  const FallbackMessage: string := "Registration failed."

  /** The message shown for a refused registration: the email errors, else
      the username errors, else the password errors (each after its label),
      else the general errors, else a fixed text; a list is joined by
      spaces. */
  function FailureMessage(e: ServerErrors): string {
    if e.email.Some? then "Email: " + Join(e.email.value, " ")
    else if e.username.Some? then "Username: " + Join(e.username.value, " ")
    else if e.password.Some? then "Password: " + Join(e.password.value, " ")
    else if e.nonFieldErrors.Some? then Join(e.nonFieldErrors.value, " ")
    else FallbackMessage
  }

  /** The precedence: once a field has errors, the errors of every later
      field make no difference to the message, which is that field's label
      followed by its errors joined by spaces; with only general errors the
      message is those errors joined by spaces, and with none the fixed
      text. */
  lemma FailurePrecedence(e: ServerErrors, u: Option<seq<string>>, p: Option<seq<string>>, n: Option<seq<string>>)
    ensures e.email.Some? ==>
      && FailureMessage(e) == FailureMessage(e.(username := u, password := p, nonFieldErrors := n))
      && FailureMessage(e)[..7] == "Email: "
      && FailureMessage(e)[7..] == Join(e.email.value, " ")
    ensures e.email.None? && e.username.Some? ==>
      && FailureMessage(e) == FailureMessage(e.(password := p, nonFieldErrors := n))
      && FailureMessage(e)[..10] == "Username: "
      && FailureMessage(e)[10..] == Join(e.username.value, " ")
    ensures e.email.None? && e.username.None? && e.password.Some? ==>
      && FailureMessage(e) == FailureMessage(e.(nonFieldErrors := n))
      && FailureMessage(e)[..10] == "Password: "
      && FailureMessage(e)[10..] == Join(e.password.value, " ")
    ensures e.email.None? && e.username.None? && e.password.None? && e.nonFieldErrors.Some? ==>
      FailureMessage(e) == Join(e.nonFieldErrors.value, " ")
    ensures e.email.None? && e.username.None? && e.password.None? && e.nonFieldErrors.None? ==>
      FailureMessage(e) == FallbackMessage
  {
  }

  /** The server's answer to the `signup` call. */
  datatype ServerReply = Accepted | Refused(errors: ServerErrors)

  const SuccessMessage: string := "Registration successful! Please check your email to verify your account."
  const LoginPath: string := "/login"

  /** What one submit does: the request sent (if any), the toast shown, and
      the page navigated to (if any). */
  datatype SubmitEffect = SubmitEffect(
    sent: Option<SignupRequest>,
    errorToast: Option<string>,
    successToast: Option<string>,
    navigateTo: Option<string>)

  /** `handleSubmit` with the server's reply as input. */
  function HandleSubmit(form: Form, reply: ServerReply): (r: SubmitEffect)
    ensures r.sent.Some? <==> Validate(form).CallSignup?
    ensures r.navigateTo.Some? <==> r.sent.Some? && reply.Accepted?
    ensures r.successToast.Some? <==> r.navigateTo.Some?
    ensures r.errorToast.Some? <==> r.successToast.None?
    ensures r.navigateTo.Some? ==> r.navigateTo.value == LoginPath && r.successToast.value == SuccessMessage
    ensures Validate(form).Rejected? ==> r.errorToast == Some(Validate(form).message)
    ensures r.sent.Some? && reply.Refused? ==> r.errorToast == Some(FailureMessage(reply.errors))
  {
    match Validate(form)
    case Rejected(message) => SubmitEffect(None, Some(message), None, None)
    case CallSignup(request) =>
      match reply
      case Accepted => SubmitEffect(Some(request), None, Some(SuccessMessage), Some(LoginPath))
      case Refused(errors) => SubmitEffect(Some(request), Some(FailureMessage(errors)), None, None)
  }

  /** Filling the four inputs one by one from the empty form: a valid
      entry (non-blank names, matching passwords of at least 8 characters)
      reaches the server with exactly the typed values. */
  lemma FilledFormReachesServer(u: string, m: string, p: string)
    requires !AllSpace(u, IsJsSpace) && !AllSpace(m, IsJsSpace) && |p| >= MinPasswordLength
    ensures var form := HandleChange(HandleChange(HandleChange(HandleChange(
                          InitialForm, Username, u), Email, m), Password, p), PasswordConfirm, p);
      HandleSubmit(form, Accepted) == SubmitEffect(Some(SignupRequest(u, m, p)), None, Some(SuccessMessage), Some(LoginPath))
  {
    var form := HandleChange(HandleChange(HandleChange(HandleChange(
                  InitialForm, Username, u), Email, m), Password, p), PasswordConfirm, p);
    assert form == Form(u, m, p, p);
    ValidateSpec(form);
  }
}
