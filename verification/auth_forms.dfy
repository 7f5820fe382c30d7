/** The client-side form checks of Frontend/src/components/auth/SignUp.jsx and
    Frontend/src/components/auth/SignIn.jsx (`validateForm`), and the data the
    sign-up form submits. The error object is a list of (field, message)
    pairs in the order the fields are checked. */
module AuthForms {
  import opened Wrappers
  import opened Text
  import opened Utils

  datatype SignUpForm = SignUpForm(username: string, email: string, password: string, confirmPassword: string)
  datatype SignInForm = SignInForm(email: string, password: string)

  /** The fields in checking order: `username`, `email`, `password`, `confirmPassword`. */
  datatype Field = UsernameField | EmailField | PasswordField | ConfirmField

  function Rank(f: Field): nat {
    match f
    case UsernameField => 0
    case EmailField => 1
    case PasswordField => 2
    case ConfirmField => 3
  }

  /** The pair a failed check adds to the error object, or nothing. */
  function Entry(f: Field, check: Option<string>): (errors: seq<(Field, string)>)
    ensures |errors| <= 1
    ensures forall e :: e in errors ==> e.0 == f && check == Some(e.1)
    ensures check.Some? ==> (f, check.value) in errors
  {
    if check.Some? then [(f, check.value)] else []
  }

  // ---------------------------------------------------------------- sign up

  const UsernameRequired: string := "Username is required"
  const UsernameTooShort: string := "Username must be at least 2 characters"
  const EmailRequired: string := "Email is required"
  const EmailInvalid: string := "Please enter a valid email"
  const PasswordRequired: string := "Password is required"
  const PasswordWeak: string := "Password must meet all requirements"
  const ConfirmRequired: string := "Please confirm your password"
  const ConfirmMismatch: string := "Passwords do not match"
  const PasswordTooShort: string := "Password must be at least 6 characters"

  function UsernameError(username: string): Option<string> {
    if JsTrim(username) == "" then Some(UsernameRequired)
    else if JsLength(JsTrim(username)) < 2 then Some(UsernameTooShort)
    else None
  }

  function EmailError(email: string): Option<string> {
    if email == "" then Some(EmailRequired)
    else if !IsValidEmail(email) then Some(EmailInvalid)
    else None
  }

  function SignUpPasswordError(password: string): Option<string> {
    if password == "" then Some(PasswordRequired)
    else if !ValidatePassword(password).isValid then Some(PasswordWeak)
    else None
  }

  function ConfirmError(password: string, confirm: string): Option<string> {
    if confirm == "" then Some(ConfirmRequired)
    else if password != confirm then Some(ConfirmMismatch)
    else None
  }

  function SignUpErrors(form: SignUpForm): seq<(Field, string)> {
    Entry(UsernameField, UsernameError(form.username))
    + Entry(EmailField, EmailError(form.email))
    + Entry(PasswordField, SignUpPasswordError(form.password))
    + Entry(ConfirmField, ConfirmError(form.password, form.confirmPassword))
  }

  /** `validateForm()`: the form passes when no key was set. */
  function ValidateSignUp(form: SignUpForm): bool { SignUpErrors(form) == [] }

  /** The sign-up form passes exactly when the trimmed username has at least
      two UTF-16 units, the e-mail matches the pattern, the password meets the
      strength rule and the confirmation is that very password. */
  lemma SignUpValidIff(form: SignUpForm)
    ensures ValidateSignUp(form) <==>
      JsLength(JsTrim(form.username)) >= 2 && IsValidEmail(form.email)
      && ValidatePassword(form.password).isValid && form.confirmPassword == form.password
  {
    if form.password == "" {
      assert !ValidatePassword(form.password).isValid;
    }
  }

  /** Each field carries at most one message, and the fields appear in
      checking order. */
  lemma SignUpErrorsOrdered(form: SignUpForm)
    ensures var errs := SignUpErrors(form);
      |errs| <= 4 && forall i, j :: 0 <= i < j < |errs| ==> Rank(errs[i].0) < Rank(errs[j].0)
  {
    EntriesAscending(UsernameError(form.username), EmailError(form.email),
                     SignUpPasswordError(form.password), ConfirmError(form.password, form.confirmPassword));
  }

  lemma EntriesAscending(u: Option<string>, e: Option<string>, p: Option<string>, c: Option<string>)
    ensures var s := Entry(UsernameField, u) + Entry(EmailField, e) + Entry(PasswordField, p) + Entry(ConfirmField, c);
      |s| <= 4 && Ordered(s)
  {
    var s0 := Entry(UsernameField, u);
    var s1 := s0 + Entry(EmailField, e);
    var s2 := s1 + Entry(PasswordField, p);
    Ascending(s0, EmailField, e);
    Ascending(s1, PasswordField, p);
    Ascending(s2, ConfirmField, c);
  }

  /** The fields of `s` appear in strictly ascending checking order. */
  predicate Ordered(s: seq<(Field, string)>) {
    forall i, j :: 0 <= i < j < |s| ==> Rank(s[i].0) < Rank(s[j].0)
  }

  /** Every field of `s` comes before rank `k`. */
  predicate Below(s: seq<(Field, string)>, k: nat) {
    forall i :: 0 <= i < |s| ==> Rank(s[i].0) < k
  }

  /** Appending the entry of a later field keeps the ranks ascending. */
  lemma Ascending(front: seq<(Field, string)>, f: Field, check: Option<string>)
    requires Ordered(front) && Below(front, Rank(f))
    ensures Ordered(front + Entry(f, check)) && Below(front + Entry(f, check), Rank(f) + 1)
  {
  }

  /** The username message: required when blank after trimming, too short
      when the trimmed name has one character. */
  lemma UsernameMessages(form: SignUpForm)
    ensures var errs := SignUpErrors(form);
      ((UsernameField, UsernameRequired) in errs <==> JsTrim(form.username) == "")
      && ((UsernameField, UsernameTooShort) in errs <==> JsLength(JsTrim(form.username)) == 1)
  {
    var errs := SignUpErrors(form);
    var e1 := Entry(EmailField, EmailError(form.email));
    var e2 := Entry(PasswordField, SignUpPasswordError(form.password));
    var e3 := Entry(ConfirmField, ConfirmError(form.password, form.confirmPassword));
    assert errs == Entry(UsernameField, UsernameError(form.username)) + e1 + e2 + e3;
    OnlyOwnField(UsernameField, EmailField, EmailError(form.email), UsernameRequired);
    OnlyOwnField(UsernameField, PasswordField, SignUpPasswordError(form.password), UsernameRequired);
    OnlyOwnField(UsernameField, ConfirmField, ConfirmError(form.password, form.confirmPassword), UsernameRequired);
    OnlyOwnField(UsernameField, EmailField, EmailError(form.email), UsernameTooShort);
    OnlyOwnField(UsernameField, PasswordField, SignUpPasswordError(form.password), UsernameTooShort);
    OnlyOwnField(UsernameField, ConfirmField, ConfirmError(form.password, form.confirmPassword), UsernameTooShort);
    UsernameErrorCases(form.username);
  }

  /** A field's message never appears under another field's check. */
  lemma OnlyOwnField(f: Field, g: Field, check: Option<string>, m: string)
    requires f != g
    ensures (f, m) !in Entry(g, check)
  {
  }

  lemma UsernameErrorCases(username: string)
    ensures UsernameError(username) == Some(UsernameRequired) <==> JsTrim(username) == ""
    ensures UsernameError(username) == Some(UsernameTooShort) <==> JsLength(JsTrim(username)) == 1
  {
    var t := JsTrim(username);
    assert t == "" <==> JsLength(t) == 0;
    assert |UsernameRequired| != |UsernameTooShort|;
  }

  /** The e-mail message: required when empty, invalid when it does not match. */
  lemma EmailMessages(form: SignUpForm)
    ensures var errs := SignUpErrors(form);
      ((EmailField, EmailRequired) in errs <==> form.email == "")
      && ((EmailField, EmailInvalid) in errs <==> form.email != "" && !IsValidEmail(form.email))
  {
  }

  /** The password message: required when empty, weak when the strength rule fails. */
  lemma PasswordMessages(form: SignUpForm)
    ensures var errs := SignUpErrors(form);
      ((PasswordField, PasswordRequired) in errs <==> form.password == "")
      && ((PasswordField, PasswordWeak) in errs <==>
            form.password != "" && !ValidatePassword(form.password).isValid)
  {
  }

  /** The confirmation message: required when empty, a mismatch otherwise
      unless it equals the password exactly. */
  lemma ConfirmMessages(form: SignUpForm)
    ensures var errs := SignUpErrors(form);
      ((ConfirmField, ConfirmRequired) in errs <==> form.confirmPassword == "")
      && ((ConfirmField, ConfirmMismatch) in errs <==>
            form.confirmPassword != "" && form.password != form.confirmPassword)
  {
  }

  /** The object sent to the server: e-mail and username trimmed, the password as typed. */
  datatype SignUpData = SignUpData(email: string, username: string, password: string)

  function SubmittedData(form: SignUpForm): SignUpData {
    SignUpData(JsTrim(form.email), JsTrim(form.username), form.password)
  }

  /** Whatever passes the checks is sent with a username of at least two
      characters and the e-mail exactly as typed, since a matching address
      has no surrounding whitespace to trim. */
  lemma SubmittedDataOfValidForm(form: SignUpForm)
    requires ValidateSignUp(form)
    ensures var d := SubmittedData(form);
      d.email == form.email && IsValidEmail(d.email) && JsLength(d.username) >= 2
      && d.password == form.password && ValidatePassword(d.password).isValid
  {
    SignUpValidIff(form);
    ValidEmailTrimmed(form.email);
  }

  /** An address that matches the pattern starts and ends with a plain
      character, so trimming leaves it alone. */
  lemma ValidEmailTrimmed(email: string)
    requires IsValidEmail(email)
    ensures JsTrim(email) == email
  {
    var at := IndexOfChar(email, '@');
    assert email[0] == email[..at][0];
    var rest := email[at + 1..];
    assert email[|email| - 1] == rest[|rest| - 1];
    assert TrimStart(email, IsJsSpace) == email;
    assert TrimEnd(email, IsJsSpace) == email;
  }

  // ---------------------------------------------------------------- sign in

  function SignInPasswordError(password: string): Option<string> {
    if password == "" then Some(PasswordRequired)
    else if JsLength(password) < 6 then Some(PasswordTooShort)
    else None
  }

  function SignInErrors(form: SignInForm): seq<(Field, string)> {
    Entry(EmailField, EmailError(form.email)) + Entry(PasswordField, SignInPasswordError(form.password))
  }

  function ValidateSignIn(form: SignInForm): bool { SignInErrors(form) == [] }

  /** The sign-in form passes exactly when the e-mail matches the pattern and
      the password has at least six UTF-16 units. */
  lemma SignInValidIff(form: SignInForm)
    ensures ValidateSignIn(form) <==> IsValidEmail(form.email) && JsLength(form.password) >= 6
    ensures (PasswordField, PasswordTooShort) in SignInErrors(form) <==> 0 < JsLength(form.password) < 6
  {
  }

  /** The sign-in rule is weaker than the sign-up rule: anything accepted at
      sign-up is accepted at sign-in with the same e-mail and password. */
  lemma SignUpImpliesSignIn(form: SignUpForm)
    requires ValidateSignUp(form)
    ensures ValidateSignIn(SignInForm(form.email, form.password))
  {
    SignUpValidIff(form);
  }

  const DemoEmail: string := "demo@distill.ai"
  const DemoPassword: string := "Demo1234!"

  /** The demo credentials the sign-in page fills in pass its checks, and the
      password would also meet the sign-up strength rule. */
  lemma DemoCredentialsPass()
    ensures ValidateSignIn(SignInForm(DemoEmail, DemoPassword))
    ensures ValidatePassword(DemoPassword).isValid
  {
    DemoEmailValid();
    DemoPasswordStrong();
    SignInValidIff(SignInForm(DemoEmail, DemoPassword));
  }

  lemma DemoEmailValid()
    ensures IsValidEmail(DemoEmail)
  {
    var s := DemoEmail;
    assert s[4] == '@' && s[12] == '.';
    assert AllPlain(s[..4]);
    assert AllPlain(s[5..12]);
    assert AllPlain(s[13..]);
    EmailPieces(s, 4, 12);
  }

  lemma DemoPasswordStrong()
    ensures ValidatePassword(DemoPassword).isValid
  {
    var p := DemoPassword;
    assert IsAsciiUpper(p[0]) && IsAsciiLower(p[1]) && IsAsciiDigit(p[4]);
    AnyCharIff(p, IsAsciiUpper);
    AnyCharIff(p, IsAsciiLower);
    AnyCharIff(p, IsAsciiDigit);
  }
}
