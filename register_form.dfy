/** The registration page's client-side logic, which pages/register.js and
    frontend/pages/register.js share line for line: the form buffer,
    `handleChange`, and the validation that `handleSubmit` runs before it
    sends anything. The two copies differ only in the URL they post to. */
module RegisterForm {
  import opened Wrappers
  import ApiUrl

  /** The `formData` object: field name to the text typed so far. */
  type FormData = map<string, string>

  const InitialForm: FormData :=
    map["name" := "", "email" := "", "password" := "", "confirmPassword" := ""]

  const AllFieldsRequired := "All fields are required"
  const PasswordsDoNotMatch := "Passwords do not match"
  const PasswordTooShort := "Password must be at least 6 characters"
  const MinPasswordLength := 6

  /** The request body: name, email and password, never the confirmation. */
  datatype RegisterRequest = RegisterRequest(url: string, name: string, email: string, password: string)

  /** The component state that `handleSubmit` touches. */
  datatype PageState = PageState(form: FormData, error: string, loading: bool)

  /** What one submit leaves behind: the new state, and the request if one went out. */
  datatype Submitted = Submitted(state: PageState, request: Option<RegisterRequest>)

  /** `formData.key`; an absent key reads as `undefined`, which is falsy like "". */
  function Field(form: FormData, key: string): string
  {
    if key in form then form[key] else ""
  }

  /** `password.length` in JavaScript counts UTF-16 code units: a character
      outside the Basic Multilingual Plane counts twice. */
  function JsLength(s: string): nat
  {
    if s == [] then 0 else (if s[0] as int > 0xFFFF then 2 else 1) + JsLength(s[1..])
  }

  /** Some field of the four is empty (or missing). */
  predicate MissingField(form: FormData)
  {
    Field(form, "name") == "" || Field(form, "email") == ""
    || Field(form, "password") == "" || Field(form, "confirmPassword") == ""
  }

  /** `handleChange`: `{...formData, [name]: value}`. */
  function HandleChange(form: FormData, name: string, value: string): (next: FormData)
    ensures next.Keys == form.Keys + {name}
    ensures next[name] == value
    ensures forall k :: k in form && k != name ==> next[k] == form[k]
  {
    form[name := value]
  }

  /** The three checks of `handleSubmit`, in the order the page runs them; each
      message is reported exactly when every earlier check passed. */
  function ValidationError(form: FormData): (err: Option<string>)
    ensures err == Some(AllFieldsRequired) <==> MissingField(form)
    ensures err == Some(PasswordsDoNotMatch)
      <==> !MissingField(form) && Field(form, "password") != Field(form, "confirmPassword")
    ensures err == Some(PasswordTooShort)
      <==> !MissingField(form) && Field(form, "password") == Field(form, "confirmPassword")
           && JsLength(Field(form, "password")) < MinPasswordLength
    ensures err.None? <==> !MissingField(form)
                           && Field(form, "password") == Field(form, "confirmPassword")
                           && JsLength(Field(form, "password")) >= MinPasswordLength
  {
    if MissingField(form) then Some(AllFieldsRequired)
    else if Field(form, "password") != Field(form, "confirmPassword") then Some(PasswordsDoNotMatch)
    else if JsLength(Field(form, "password")) < MinPasswordLength then Some(PasswordTooShort)
    else None
  }

  /** `handleSubmit` up to the request: the error is cleared first, then either
      a check fails (its message is shown, loading untouched, nothing sent) or
      loading turns on and the registration request goes out to `url`. */
  function HandleSubmit(state: PageState, url: string): (r: Submitted)
    ensures r.state.form == state.form
    ensures r.request.Some? <==> ValidationError(state.form).None?
    ensures r.request.None? ==>
      r.state.error == ValidationError(state.form).value && r.state.error != ""
      && r.state.loading == state.loading
    ensures r.request.Some? ==>
      r.state.error == "" && r.state.loading
      && r.request.value.url == url
      && r.request.value.name == Field(state.form, "name")
      && r.request.value.email == Field(state.form, "email")
      && r.request.value.password == Field(state.form, "password")
      && r.request.value.password == Field(state.form, "confirmPassword")
  {
    var cleared := state.(error := "");
    match ValidationError(state.form)
    case Some(message) => Submitted(cleared.(error := message), None)
    case None =>
      Submitted(cleared.(loading := true),
                Some(RegisterRequest(url, Field(state.form, "name"), Field(state.form, "email"),
                                     Field(state.form, "password"))))
  }

  /** The URL pages/register.js posts to. */
  const RootRegisterUrl := "http://localhost:5000/api/register"

  /** `handleSubmit` of pages/register.js. */
  function SubmitRootPage(state: PageState): (r: Submitted)
    ensures r.request.Some? ==> r.request.value.url == "http://localhost:5000/api/register"
    ensures r.request.Some? <==> ValidationError(state.form).None?
  {
    HandleSubmit(state, RootRegisterUrl)
  }

  /** `handleSubmit` of frontend/pages/register.js, which posts to
      `getApiUrl('/api/register')`. */
  function SubmitFrontendPage(state: PageState): (r: Submitted)
    ensures r.request.Some? ==> r.request.value.url == "/api/register"
    ensures r.request.Some? <==> ValidationError(state.form).None?
  {
    HandleSubmit(state, ApiUrl.GetApiUrl(Some("/api/register")))
  }

  /** A JavaScript length lies between the number of characters and twice it,
      so the length check can pass with as few as three characters. */
  lemma {:induction false} JsLengthBounds(s: string)
    ensures |s| <= JsLength(s) <= 2 * |s|
  {
    if s != [] {
      JsLengthBounds(s[1..]);
    }
  }

  /** Typing into one field keeps every other field, so a form that failed
      only because another field was empty still fails for that field. */
  lemma {:induction false} ChangeKeepsOtherMissing(form: FormData, name: string, value: string, other: string)
    requires other != name && Field(form, other) == ""
    requires other in {"name", "email", "password", "confirmPassword"}
    ensures ValidationError(HandleChange(form, name, value)) == Some(AllFieldsRequired)
  {
    assert Field(HandleChange(form, name, value), other) == "";
  }

  /** The freshly mounted form fails the first check. */
  lemma InitialFormIncomplete()
    ensures ValidationError(InitialForm) == Some(AllFieldsRequired)
  {
  }
}
