/**
 * The client-side guards that run before a request is sent: `handleLogin`, `handleRegister`,
 * `handleAddItem` and `handleUpdateItem` in frontend/script.js. Every field is trimmed when
 * read from the form; the guards are checked in order and the first that fails decides the
 * message shown, otherwise the trimmed values are sent.
 */
module FormChecks {
  import opened Wrappers
  import opened JsString
  import ItemRoutes

  /** What a submit handler does: show a message, or send the request. */
  datatype Verdict<T> = Rejected(message: string) | Send(request: T)

  datatype Credentials = Credentials(email: string, password: string)
  datatype Registration = Registration(username: string, email: string, password: string, confirmPassword: string)
  datatype ItemForm = ItemForm(title: string, description: string, priority: string, status: string)

  const MissingCredentials := "Please enter email and password"
  const AllFieldsRequired := "All fields are required"
  const PasswordsDiffer := "Passwords do not match"
  const PasswordTooShort := "Password must be at least 6 characters"
  const MissingTitle := "\U{274C} Please enter a title"

  const MinPasswordLength := 6

  /** `handleLogin`, lines 145-153. */
  function CheckLogin(email: string, password: string): (v: Verdict<Credentials>)
    ensures v.Send? <==> Trim(email) != "" && Trim(password) != ""
    ensures v.Rejected? ==> v.message == MissingCredentials
    ensures v.Send? ==> v.request == Credentials(Trim(email), Trim(password))
  {
    var e, p := Trim(email), Trim(password);
    if e == "" || p == "" then Rejected(MissingCredentials) else Send(Credentials(e, p))
  }

  /** `handleRegister`, lines 191-214. */
  function CheckRegister(username: string, email: string, password: string, confirmPassword: string): (v: Verdict<Registration>)
    ensures v == Rejected(AllFieldsRequired) <==>
      Trim(username) == "" || Trim(email) == "" || Trim(password) == "" || Trim(confirmPassword) == ""
    ensures v == Rejected(PasswordsDiffer) <==>
      Trim(username) != "" && Trim(email) != "" && Trim(password) != "" && Trim(confirmPassword) != ""
      && Trim(password) != Trim(confirmPassword)
    ensures v == Rejected(PasswordTooShort) <==>
      Trim(username) != "" && Trim(email) != "" && Trim(password) != ""
      && Trim(password) == Trim(confirmPassword) && Utf16Length(Trim(password)) < MinPasswordLength
    ensures v.Send? <==>
      Trim(username) != "" && Trim(email) != "" && Trim(password) != ""
      && Trim(password) == Trim(confirmPassword) && Utf16Length(Trim(password)) >= MinPasswordLength
    ensures v.Send? ==> v.request == Registration(Trim(username), Trim(email), Trim(password), Trim(confirmPassword))
  {
    var u, e, p, c := Trim(username), Trim(email), Trim(password), Trim(confirmPassword);
    if u == "" || e == "" || p == "" || c == "" then Rejected(AllFieldsRequired)
    else if p != c then Rejected(PasswordsDiffer)
    else if Utf16Length(p) < MinPasswordLength then Rejected(PasswordTooShort)
    else Send(Registration(u, e, p, c))
  }

  /** The title guard shared by `handleAddItem` (lines 348-356) and `handleUpdateItem` (lines 407-416). */
  function CheckItemForm(title: string, description: string, priority: string, status: string): (v: Verdict<ItemForm>)
    ensures v.Send? <==> Trim(title) != ""
    ensures v.Rejected? ==> v.message == MissingTitle
    ensures v.Send? ==> v.request == ItemForm(Trim(title), Trim(description), priority, status)
  {
    var t := Trim(title);
    if t == "" then Rejected(MissingTitle) else Send(ItemForm(t, Trim(description), priority, status))
  }

  /** Neither starts nor ends with whitespace. */
  predicate Trimmed(s: string) {
    s != [] ==> !IsJsWhitespace(s[0]) && !IsJsWhitespace(s[|s| - 1])
  }

  /**
   * A registration that is sent has four non-blank trimmed fields, a password equal to its
   * confirmation, and a password of at least six UTF-16 code units (so at least three characters).
   */
  lemma SentRegistrationIsClean(username: string, email: string, password: string, confirmPassword: string)
    requires CheckRegister(username, email, password, confirmPassword).Send?
    ensures var r := CheckRegister(username, email, password, confirmPassword).request;
      && r.username != "" && r.email != "" && r.password == r.confirmPassword
      && Trimmed(r.username) && Trimmed(r.email) && Trimmed(r.password)
      && Utf16Length(r.password) >= MinPasswordLength && |r.password| >= 3
  {
    var _, _ := TrimIsSlice(username);
    var _, _ := TrimIsSlice(email);
    var _, _ := TrimIsSlice(password);
  }

  /** Submitting a sent registration again would send exactly the same request. */
  lemma RegisterStable(username: string, email: string, password: string, confirmPassword: string)
    requires CheckRegister(username, email, password, confirmPassword).Send?
    ensures var r := CheckRegister(username, email, password, confirmPassword).request;
      CheckRegister(r.username, r.email, r.password, r.confirmPassword) == Send(r)
  {
    TrimIdempotent(username);
    TrimIdempotent(email);
    TrimIdempotent(password);
    TrimIdempotent(confirmPassword);
  }

  /** Submitting sent credentials again would send exactly the same request. */
  lemma LoginStable(email: string, password: string)
    requires CheckLogin(email, password).Send?
    ensures var c := CheckLogin(email, password).request;
      CheckLogin(c.email, c.password) == Send(c)
  {
    TrimIdempotent(email);
    TrimIdempotent(password);
  }

  /** A form is refused for its title exactly when the title is blank or whitespace only. */
  lemma ItemFormRejectsBlankTitle(title: string, description: string, priority: string, status: string)
    ensures CheckItemForm(title, description, priority, status).Rejected? <==> AllWhitespace(title)
  {
    TrimEmptyIffAllWhitespace(title);
  }

  /**
   * The client's title guard is stricter than the server's: a form the client sends is never
   * refused by POST / for its title, and on PUT /:id it replaces both title and description.
   */
  lemma SentItemFormPassesServer(title: string, description: string, priority: string, status: string, stored: ItemRoutes.Item)
    requires CheckItemForm(title, description, priority, status).Send?
    ensures var f := CheckItemForm(title, description, priority, status).request;
      && ItemRoutes.Truthy(Some(f.title))
      && ItemRoutes.Patch(stored, Some(f.title), Some(f.description)) == stored.(title := f.title, description := f.description)
  {
  }
}
