/** The signup form of `client/src/pages/signup.tsx`: react-hook-form's
    `required`, `minLength`, `pattern` and `validate` rules on the three
    fields, checked in that order with the first failure reported, and the
    navigation to the one-time-password page after the server accepts. */
module SignupForm {
  import opened Wrappers
  import JsString
  import Utils

  /** `disallowedNames`: first path segments the router already uses. */
  const DisallowedNames: seq<string> := ["blogs", "login", "signup", "otp", "feed"]

  const RequiredMessage := "This field is required!"
  const UsernameTooShort := "Username must be at least 3 characters long"
  const UsernameNotAllowed := "Username is not allowed"
  const DisallowedCharacters := "URL contains disallowed characters"
  const InvalidEmail := "Please enter a valid email address"
  const PasswordTooShort := "Password must be at least 6 characters long"

  /** `disallowedCharactersInURL.some((char) => value.includes(char))`. */
  predicate HasDisallowedCharacter(value: string)
  {
    exists i :: 0 <= i < |Utils.DisallowedCharactersInUrl| && Utils.DisallowedCharactersInUrl[i] in value
  }

  /** The username's `validate` callback: `None` stands for `true`. */
  function ValidateUsername(value: string): Option<string>
  {
    if value in DisallowedNames then Some(UsernameNotAllowed)
    else if HasDisallowedCharacter(value) then Some(DisallowedCharacters)
    else None
  }

  /** The username field's first error; lengths are JavaScript's. */
  function UsernameError(value: string): (r: Option<string>)
    ensures value == "" ==> r == Some(RequiredMessage)
    ensures r.None? ==> JsString.Length(value) >= 3 && value !in DisallowedNames
  {
    if value == "" then Some(RequiredMessage)
    else if JsString.Length(value) < 3 then Some(UsernameTooShort)
    else ValidateUsername(value)
  }

  /** The email field's first error; `pattern` is the form's email regular
      expression. */
  function EmailError(value: string, pattern: string -> bool): (r: Option<string>)
    ensures r.None? <==> value != "" && pattern(value)
    ensures r.Some? ==> r.value in {RequiredMessage, InvalidEmail}
  {
    if value == "" then Some(RequiredMessage)
    else if !pattern(value) then Some(InvalidEmail)
    else None
  }

  /** The password field's first error: at least six UTF-16 code units. */
  function PasswordError(value: string): (r: Option<string>)
    ensures r.None? <==> JsString.Length(value) >= 6
    ensures r.Some? ==> r.value in {RequiredMessage, PasswordTooShort}
  {
    if value == "" then Some(RequiredMessage)
    else if JsString.Length(value) < 6 then Some(PasswordTooShort)
    else None
  }

  /** A username passes every rule exactly when it has at least three
      characters, is not a reserved name and holds no disallowed character. */
  lemma UsernameAccepted(value: string)
    ensures UsernameError(value).None? <==>
      JsString.Length(value) >= 3 && value !in DisallowedNames && !HasDisallowedCharacter(value)
  {
  }

  /** Each rule's message, in the order the rules are checked: a reserved
      name is reported as such even if it also held a disallowed character,
      and any disallowed character in a long enough name is reported. */
  lemma UsernameMessages(value: string)
    ensures JsString.Length(value) < 3 ==> UsernameError(value).Some? && UsernameError(value).value != UsernameNotAllowed
    ensures JsString.Length(value) >= 3 && value in DisallowedNames ==> UsernameError(value) == Some(UsernameNotAllowed)
    ensures JsString.Length(value) >= 3 && value !in DisallowedNames && HasDisallowedCharacter(value) ==>
      UsernameError(value) == Some(DisallowedCharacters)
  {
  }

  /** The reserved-name match is exact and case-sensitive: "blogs" is
      refused, "Blogs" passes. */
  lemma ReservedNamesCaseSensitive()
    ensures UsernameError("blogs") == Some(UsernameNotAllowed)
    ensures UsernameError("Blogs") == None
  {
    JsString.LengthBmp("blogs");
    JsString.LengthBmp("Blogs");
    assert "Blogs" !in DisallowedNames;
    forall i | 0 <= i < |Utils.DisallowedCharactersInUrl|
      ensures Utils.DisallowedCharactersInUrl[i] !in "Blogs"
    {
    }
  }

  /** A name with any character of the URL deny-list is refused. */
  lemma DisallowedCharacterRefused(value: string, k: nat)
    requires k < |value| && value[k] in Utils.DisallowedCharactersInUrl
    ensures UsernameError(value).Some?
  {
    var i :| 0 <= i < |Utils.DisallowedCharactersInUrl| && Utils.DisallowedCharactersInUrl[i] == value[k];
    assert HasDisallowedCharacter(value);
  }

  /** A password passes exactly when it has at least six UTF-16 code units;
      five characters of plain text are too few. */
  lemma PasswordAccepted(value: string)
    ensures PasswordError(value).None? <==> JsString.Length(value) >= 6
    ensures PasswordError(value) == Some(PasswordTooShort) <==> value != "" && JsString.Length(value) < 6
    ensures PasswordError("abcde") == Some(PasswordTooShort)
  {
    JsString.LengthBmp("abcde");
  }

  datatype SignupFormData = SignupFormData(username: string, email: string, password: string)

  /** `navigate(path, { replace, state: { email } })`. */
  datatype Navigation = Navigation(path: string, replace: bool, email: string)

  /** What a submit does: the request posted, if the form is valid, and the
      navigation made once the server answers with success. */
  datatype SubmitResult = SubmitResult(posted: Option<SignupFormData>, navigation: Option<Navigation>)

  predicate FormValid(form: SignupFormData, pattern: string -> bool)
  {
    UsernameError(form.username).None? && EmailError(form.email, pattern).None? && PasswordError(form.password).None?
  }

  /** `handleSubmit(onSubmit)` with the mutation's `onSuccess`;
      `serverAccepts` is the answer of `POST /api/users/signup`. */
  function Submit(form: SignupFormData, pattern: string -> bool, serverAccepts: bool): (r: SubmitResult)
    ensures r.posted.Some? ==> r.posted.value == form && FormValid(form, pattern)
    ensures r.navigation.Some? ==> r.posted.Some? && serverAccepts && r.navigation.value.path == "/otp"
  {
    if !FormValid(form, pattern) then SubmitResult(None, None)
    else if serverAccepts then SubmitResult(Some(form), Some(Navigation("/otp", true, form.email)))
    else SubmitResult(Some(form), None)
  }

  /** The form posts only valid data, and the page moves on to "/otp",
      replacing the history entry and carrying the submitted email, exactly
      when the form was valid and the server accepted it. */
  lemma SubmitNavigates(form: SignupFormData, pattern: string -> bool, serverAccepts: bool)
    ensures var r := Submit(form, pattern, serverAccepts);
      && (r.posted.Some? <==> FormValid(form, pattern))
      && (r.posted.Some? ==> r.posted.value == form && JsString.Length(form.password) >= 6)
      && (r.navigation.Some? <==> FormValid(form, pattern) && serverAccepts)
      && (r.navigation.Some? ==> r.navigation.value == Navigation("/otp", true, form.email))
  {
  }
}
