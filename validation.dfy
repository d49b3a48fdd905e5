/** The client's form validators.  Thresholds: a password of at least 6
    UTF-16 units, a trimmed name of at least 2; the email pattern is
    `^[^\s@]+@[^\s@]+\.[^\s@]+$`. */
module Validation {
  import opened Common

  const MinPasswordLength: nat := 6
  const MinNameLength: nat := 2

  // ---------------------------------------------------------------------
  // Email
  // ---------------------------------------------------------------------

  /** `[^\s@]`. */
  predicate EmailChar(c: char) {
    !IsJsSpace(c) && c != '@'
  }

  predicate EmailChars(s: string) {
    forall k :: 0 <= k < |s| ==> EmailChar(s[k])
  }

  /** `[^\s@]+\.[^\s@]+`: a dot with at least one character on each side. */
  predicate DomainOk(d: string) {
    EmailChars(d) && exists j :: 0 < j < |d| - 1 && d[j] == '.'
  }

  /** An `@` at `i` with a non-empty local part before it and a valid
      domain after it. */
  predicate AtSplit(s: string, i: int) {
    0 < i < |s| && s[i] == '@' && EmailChars(s[..i]) && DomainOk(s[i + 1..])
  }

  /** `validateEmail`, as a check the browser could run. */
  function ValidateEmail(s: string): (b: bool)
    ensures b ==> |s| >= 5
  {
    exists i :: 0 < i < |s| && AtSplit(s, i)
  }

  /** `s` is `local@host.tld`, each piece a non-empty run of `[^\s@]`. */
  predicate PatternParts(s: string, local: string, host: string, tld: string) {
    s == local + "@" + host + "." + tld &&
    |local| > 0 && |host| > 0 && |tld| > 0 &&
    EmailChars(local) && EmailChars(host) && EmailChars(tld)
  }

  /** The regular expression itself, read as "three runs of `[^\s@]`
      joined by `@` and `.`". */
  ghost predicate MatchesEmailPattern(s: string) {
    exists local: string, host: string, tld: string :: PatternParts(s, local, host, tld)
  }

  /** Every address the check accepts matches the pattern. */
  lemma ValidateEmailMatches(s: string)
    requires ValidateEmail(s)
    ensures MatchesEmailPattern(s)
  {
    var i :| 0 < i < |s| && AtSplit(s, i);
    var d := s[i + 1..];
    var j :| 0 < j < |d| - 1 && d[j] == '.';
    var local, host, tld := s[..i], d[..j], d[j + 1..];
    EmailCharsSlice(d, 0, j);
    EmailCharsSlice(d, j + 1, |d|);
    SliceAround(s, i);
    SliceAround(d, j);
    assert s == local + ['@'] + d;
    assert d == host + ['.'] + tld;
    Glue(local, host, tld, '@', '.');
    assert PatternParts(s, local, host, tld);
  }


  lemma EmailCharsSlice(s: string, a: nat, b: nat)
    requires EmailChars(s) && a <= b <= |s|
    ensures EmailChars(s[a..b])
  {
    forall k | 0 <= k < b - a ensures EmailChar(s[a..b][k]) { assert s[a..b][k] == s[a + k]; }
  }

  /** Every address the pattern matches is accepted by the check. */
  lemma MatchesValidateEmail(s: string)
    requires MatchesEmailPattern(s)
    ensures ValidateEmail(s)
  {
    var local: string, host: string, tld: string :| PatternParts(s, local, host, tld);
    var i := |local|;
    var d := host + "." + tld;
    assert s == local + "@" + d by {
      assert local + "@" + host + "." + tld == local + "@" + (host + "." + tld);
    }
    assert s[..i] == local;
    assert s[i] == '@';
    assert s[i + 1..] == d;
    assert EmailChars(d) by {
      forall k | 0 <= k < |d| ensures EmailChar(d[k]) {
        if k < |host| { assert d[k] == host[k]; }
        else if k > |host| { assert d[k] == tld[k - |host| - 1]; }
      }
    }
    assert d[|host|] == '.';
    assert AtSplit(s, i);
  }

  /** The check accepts exactly the strings the pattern matches. */
  lemma ValidateEmailIsPattern(s: string)
    ensures ValidateEmail(s) <==> MatchesEmailPattern(s)
  {
    if ValidateEmail(s) { ValidateEmailMatches(s); }
    if MatchesEmailPattern(s) { MatchesValidateEmail(s); }
  }

  /** A valid address holds no whitespace and exactly one `@`. */
  lemma ValidEmailShape(s: string)
    requires ValidateEmail(s)
    ensures forall k :: 0 <= k < |s| ==> !IsJsSpace(s[k])
    ensures forall k, m :: 0 <= k < |s| && 0 <= m < |s| && s[k] == '@' && s[m] == '@' ==> k == m
  {
    var i :| 0 < i < |s| && AtSplit(s, i);
    forall k | 0 <= k < |s| ensures !IsJsSpace(s[k]) && (s[k] == '@' ==> k == i) {
      if k < i { assert s[k] == s[..i][k]; }
      else if k > i { assert s[k] == s[i + 1..][k - i - 1]; }
    }
  }

  // ---------------------------------------------------------------------
  // Password and name
  // ---------------------------------------------------------------------

  /** `password.length >= 6`, counted in UTF-16 units. */
  function ValidatePassword(password: string): (b: bool)
    ensures |password| >= MinPasswordLength ==> b
    ensures b ==> 2 * |password| >= MinPasswordLength
  {
    Utf16Length(password) >= MinPasswordLength
  }

  /** `name.trim().length >= 2`. */
  /** For text without astral characters the password rule is exactly
      "at least six characters". */
  lemma ValidatePasswordThreshold(password: string)
    requires InBmp(password)
    ensures ValidatePassword(password) <==> |password| >= MinPasswordLength
  {
    Utf16LengthOfBmp(password);
  }

  /** For text without astral characters the name rule is exactly "at
      least two characters once trimmed". */
  lemma ValidateNameThreshold(name: string)
    requires InBmp(name)
    ensures ValidateName(name) <==> |Trim(name)| >= MinNameLength
  {
    TrimInBmp(name);
    Utf16LengthOfBmp(Trim(name));
  }

  function ValidateName(name: string): (b: bool)
    ensures b ==> !AllSpace(name)
  {
    TrimEmptyIffAllSpace(name);
    Utf16Length(Trim(name)) >= MinNameLength
  }

  /** Surrounding whitespace never makes a name valid: a name of spaces is
      invalid however long it is. */
  lemma BlankNameInvalid(name: string)
    requires AllSpace(name)
    ensures !ValidateName(name)
  {
    TrimEmptyIffAllSpace(name);
  }

  // ---------------------------------------------------------------------
  // Forms
  // ---------------------------------------------------------------------

  datatype FormError =
    | EmptyFields
    | InvalidEmail
    | NameTooShort
    | PasswordTooShort
    | PasswordsNotMatch
    | EmptyTitle

  /** The text shown for each error. */
  function Message(e: FormError): string
  {
    match e
    case EmptyFields => "Vui l\U{00F2}ng \U{0111}i\U{1EC1}n \U{0111}\U{1EA7}y \U{0111}\U{1EE7} th\U{00F4}ng tin"
    case InvalidEmail => "Email kh\U{00F4}ng h\U{1EE3}p l\U{1EC7}"
    case NameTooShort => "T\U{00EA}n ph\U{1EA3}i c\U{00F3} \U{00ED}t nh\U{1EA5}t 2 k\U{00FD} t\U{1EF1}"
    case PasswordTooShort => "M\U{1EAD}t kh\U{1EA9}u ph\U{1EA3}i c\U{00F3} \U{00ED}t nh\U{1EA5}t 6 k\U{00FD} t\U{1EF1}"
    case PasswordsNotMatch => "M\U{1EAD}t kh\U{1EA9}u kh\U{00F4}ng kh\U{1EDB}p"
    case EmptyTitle => "Vui l\U{00F2}ng nh\U{1EAD}p ti\U{00EA}u \U{0111}\U{1EC1}"
  }

  datatype Verdict = Valid | Invalid(error: FormError)

  /** Form fields; "" stands for an absent or empty field. */
  datatype LoginForm = LoginForm(email: string, password: string)

  datatype RegisterForm = RegisterForm(name: string, email: string, password: string, confirmPassword: string)

  datatype PostForm = PostForm(title: string, content: string, image: string)

  function ValidateLoginForm(f: LoginForm): (r: Verdict)
    ensures r == Valid <==> f.email != "" && f.password != "" && ValidateEmail(f.email)
    ensures f.email == "" || f.password == "" ==> r == Invalid(EmptyFields)
    ensures r.Invalid? ==> r.error == EmptyFields || r.error == InvalidEmail
  {
    if f.email == "" || f.password == "" then Invalid(EmptyFields)
    else if !ValidateEmail(f.email) then Invalid(InvalidEmail)
    else Valid
  }

  /** Login never looks at the password's length. */
  lemma LoginIgnoresPasswordLength(f: LoginForm, p: string)
    requires f.password != "" && p != ""
    ensures ValidateLoginForm(f) == ValidateLoginForm(f.(password := p))
  {
  }

  predicate RegisterFieldsPresent(f: RegisterForm) {
    f.name != "" && f.email != "" && f.password != "" && f.confirmPassword != ""
  }

  function ValidateRegisterForm(f: RegisterForm): (r: Verdict)
    // valid exactly when every check passes
    ensures r == Valid <==>
              RegisterFieldsPresent(f) && ValidateName(f.name) && ValidateEmail(f.email) &&
              ValidatePassword(f.password) && f.password == f.confirmPassword
    // each error is reported exactly when every earlier check passed and its own failed
    ensures r == Invalid(EmptyFields) <==> !RegisterFieldsPresent(f)
    ensures r == Invalid(NameTooShort) <==> RegisterFieldsPresent(f) && !ValidateName(f.name)
    ensures r == Invalid(InvalidEmail) <==>
              RegisterFieldsPresent(f) && ValidateName(f.name) && !ValidateEmail(f.email)
    ensures r == Invalid(PasswordTooShort) <==>
              RegisterFieldsPresent(f) && ValidateName(f.name) && ValidateEmail(f.email) &&
              !ValidatePassword(f.password)
    ensures r == Invalid(PasswordsNotMatch) <==>
              RegisterFieldsPresent(f) && ValidateName(f.name) && ValidateEmail(f.email) &&
              ValidatePassword(f.password) && f.password != f.confirmPassword
  {
    if !RegisterFieldsPresent(f) then Invalid(EmptyFields)
    else if !ValidateName(f.name) then Invalid(NameTooShort)
    else if !ValidateEmail(f.email) then Invalid(InvalidEmail)
    else if !ValidatePassword(f.password) then Invalid(PasswordTooShort)
    else if f.password != f.confirmPassword then Invalid(PasswordsNotMatch)
    else Valid
  }

  /** A valid registration is also a valid login with the same email and
      password. */
  lemma RegisterValidImpliesLoginValid(f: RegisterForm)
    requires ValidateRegisterForm(f) == Valid
    ensures ValidateLoginForm(LoginForm(f.email, f.password)) == Valid
  {
  }

  /** `formData.title?.trim()` and `formData.content?.trim()` must both be
      non-empty; the one error reported is the empty-title one. */
  function ValidatePostForm(f: PostForm): (r: Verdict)
    ensures r == Valid <==> !AllSpace(f.title) && !AllSpace(f.content)
    ensures r != Valid ==> r == Invalid(EmptyTitle)
  {
    TrimEmptyIffAllSpace(f.title);
    TrimEmptyIffAllSpace(f.content);
    if Trim(f.title) == "" || Trim(f.content) == "" then Invalid(EmptyTitle) else Valid
  }
}
