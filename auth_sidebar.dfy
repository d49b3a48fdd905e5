/** The sign-in / sign-up side panel: its form state, the submit and
    toggle handlers, and the avatar initials.  `Date.now()` is the
    parameter `now`, and the `onLogin` callback is the returned user. */
module AuthSidebar {
  import opened Common
  import opened Validation

  const LoginSuccess: string := "\U{0110}\U{0103}ng nh\U{1EAD}p th\U{00E0}nh c\U{00F4}ng! \U{1F389}"
  const RegisterSuccess: string := "\U{0110}\U{0103}ng k\U{00FD} th\U{00E0}nh c\U{00F4}ng! \U{1F389}"

  /** What is handed to `onLogin`. */
  datatype UserData = UserData(id: int, name: string, email: string)

  datatype Field = NameField | EmailField | PasswordField | ConfirmField

  const EmptyForm: RegisterForm := RegisterForm("", "", "", "")

  /** `{ ...prev, [name]: value }`. */
  function WithField(form: RegisterForm, field: Field, value: string): (r: RegisterForm)
    ensures field == NameField ==> r == form.(name := value)
    ensures field == EmailField ==> r == form.(email := value)
    ensures field == PasswordField ==> r == form.(password := value)
    ensures field == ConfirmField ==> r == form.(confirmPassword := value)
  {
    match field
    case NameField => form.(name := value)
    case EmailField => form.(email := value)
    case PasswordField => form.(password := value)
    case ConfirmField => form.(confirmPassword := value)
  }

  /** Login mode checks only the email and password; register mode checks
      the whole form. */
  function SubmitVerdict(isLogin: bool, form: RegisterForm): (v: Verdict)
    ensures isLogin ==> v == ValidateLoginForm(LoginForm(form.email, form.password))
    ensures !isLogin ==> v == ValidateRegisterForm(form)
  {
    if isLogin then ValidateLoginForm(LoginForm(form.email, form.password))
    else ValidateRegisterForm(form)
  }

  /** In login mode the name and the confirmation are never looked at. */
  lemma LoginIgnoresRegisterFields(form: RegisterForm, name: string, confirm: string)
    ensures SubmitVerdict(true, form) == SubmitVerdict(true, form.(name := name, confirmPassword := confirm))
  {
  }

  /** `email.split('@')[0]` in login mode, the typed name otherwise. */
  function DisplayName(isLogin: bool, form: RegisterForm): (r: string)
    ensures !isLogin ==> r == form.name
    ensures isLogin ==> NoneIn(r, {'@'})
    ensures isLogin && NoneIn(form.email, {'@'}) ==> r == form.email
  {
    SplitPiecesFree(form.email, {'@'});
    if isLogin then Split(form.email, {'@'})[0] else form.name
  }

  /** For an email that passed validation, the login name is its non-empty
      local part. */
  lemma LoginNameIsLocalPart(email: string, form: RegisterForm)
    requires ValidateEmail(email) && form.email == email
    ensures var name := DisplayName(true, form);
            name != "" && NoneIn(name, {'@'}) && StartsWith(email, name + "@")
  {
    var i :| 0 < i < |email| && AtSplit(email, i);
    var local := email[..i];
    assert NoneIn(local, {'@'}) by {
      forall k | 0 <= k < |local| ensures local[k] != '@' { assert EmailChar(local[k]); }
    }
    assert email == local + ['@'] + email[i + 1..];
    SplitAfterFree(local, '@', email[i + 1..], {'@'});
    assert (local + "@") == email[..i + 1];
  }

  /** `getInitials`: the first character of each space-separated word,
      upper-cased, at most two of them. */
  function Initials(name: string): (r: string)
    ensures |r| <= 2
  {
    var all := Upper(FirstChars(Split(name, {' '})));
    if |all| <= 2 then all else all[..2]
  }

  /** `map(n => n[0]).join('')`: an empty word adds nothing. */
  function FirstChars(words: seq<string>): (r: string)
    ensures |r| <= |words|
  {
    if words == [] then "" else words[0][..if |words[0]| == 0 then 0 else 1] + FirstChars(words[1..])
  }

  /** A one-word name gives its first letter. */
  lemma InitialsOfOneWord(w: string)
    requires w != "" && NoneIn(w, {' '})
    ensures Initials(w) == [UpperChar(w[0])]
  {
    assert Split(w, {' '}) == [w];
    assert FirstChars([w]) == w[..1];
  }

  /** A first and a last name give both first letters, upper-cased. */
  lemma InitialsOfTwoWords(first: string, last: string)
    requires first != "" && last != "" && NoneIn(first, {' '}) && NoneIn(last, {' '})
    ensures Initials(first + " " + last) == [UpperChar(first[0]), UpperChar(last[0])]
  {
    SplitAfterFree(first, ' ', last, {' '});
    assert first + " " + last == first + [' '] + last;
    assert Split(last, {' '}) == [last];
    var words := [first, last];
    assert FirstChars(words) == first[..1] + FirstChars([last]);
    assert FirstChars([last]) == last[..1];
  }

  /** A name of two or more words, such as a family name, a middle name
      and a given name, gives the first letters of its first two words. */
  lemma InitialsOfLongName(first: string, second: string, rest: string)
    requires first != "" && second != "" && NoneIn(first, {' '}) && NoneIn(second, {' '})
    ensures Initials(first + " " + second + " " + rest) == [UpperChar(first[0]), UpperChar(second[0])]
  {
    var tail := Split(rest, {' '});
    SplitTwoWords(first, second, rest);
    FirstCharsOfTwo(first, second, tail);
    var chars := FirstChars([first, second] + tail);
    var all := Upper(chars);
    assert all[..2] == [UpperChar(first[0]), UpperChar(second[0])];
  }

  lemma SplitTwoWords(first: string, second: string, rest: string)
    requires NoneIn(first, {' '}) && NoneIn(second, {' '})
    ensures Split(first + " " + second + " " + rest, {' '}) == [first, second] + Split(rest, {' '})
  {
    assert first + " " + second + " " + rest == first + [' '] + (second + [' '] + rest);
    SplitAfterFree(first, ' ', second + [' '] + rest, {' '});
    SplitAfterFree(second, ' ', rest, {' '});
  }

  lemma FirstCharsOfTwo(a: string, b: string, tail: seq<string>)
    requires a != "" && b != ""
    ensures |FirstChars([a, b] + tail)| >= 2
    ensures FirstChars([a, b] + tail)[..2] == [a[0], b[0]]
  {
    var words := [a, b] + tail;
    assert words[1..] == [b] + tail;
    assert ([b] + tail)[1..] == tail;
    assert FirstChars(words[1..]) == b[..1] + FirstChars(tail);
    assert FirstChars(words) == a[..1] + (b[..1] + FirstChars(tail));
  }

  /** The panel's state. */
  class Panel {
    var isLogin: bool
    var form: RegisterForm
    var error: string
    var successMessage: string

    constructor ()
      ensures isLogin && form == EmptyForm && error == "" && successMessage == ""
    {
      isLogin, form, error, successMessage := true, EmptyForm, "", "";
    }

    /** `handleChange`: only the named field changes, and the error is
        cleared. */
    method HandleChange(field: Field, value: string)
      modifies this
      ensures form == WithField(old(form), field, value)
      ensures error == ""
      ensures isLogin == old(isLogin) && successMessage == old(successMessage)
    {
      form := WithField(form, field, value);
      error := "";
    }

    /** `handleSubmit`: a failing form shows its error and stays as it is;
        a passing one is handed to `onLogin`, cleared, and greeted with the
        mode's success message. */
    method HandleSubmit(now: int) returns (loggedIn: Option<UserData>)
      modifies this
      ensures isLogin == old(isLogin)
      ensures SubmitVerdict(old(isLogin), old(form)).Invalid? ==>
                loggedIn.None? && error == Message(SubmitVerdict(old(isLogin), old(form)).error) &&
                form == old(form) && successMessage == old(successMessage)
      ensures SubmitVerdict(old(isLogin), old(form)) == Valid ==>
                loggedIn == Some(UserData(now, DisplayName(old(isLogin), old(form)), old(form.email))) &&
                form == EmptyForm && error == old(error) &&
                successMessage == (if old(isLogin) then LoginSuccess else RegisterSuccess)
    {
      var validation := SubmitVerdict(isLogin, form);
      if validation.Invalid? {
        error := Message(validation.error);
        return None;
      }
      var userData := UserData(now, DisplayName(isLogin, form), form.email);
      loggedIn := Some(userData);
      form := EmptyForm;
      successMessage := if isLogin then LoginSuccess else RegisterSuccess;
    }

    /** `toggleForm`: the other mode, with everything cleared. */
    method ToggleForm()
      modifies this
      ensures isLogin == !old(isLogin)
      ensures form == EmptyForm && error == "" && successMessage == ""
    {
      isLogin := !isLogin;
      form := EmptyForm;
      error := "";
      successMessage := "";
    }
  }

  /** A successful submit leaves an empty form, which would fail if sent
      again straight away. */
  lemma EmptyFormFails(isLogin: bool)
    ensures SubmitVerdict(isLogin, EmptyForm) == Invalid(EmptyFields)
  {
  }
}
