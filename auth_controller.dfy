/** Account registration and login.  Password hashing, hash comparison and
    token signing are the parameters `hash`, `compare` and `sign`; the user
    model's own definition is not part of this model, so a new user's role
    is the parameter `defaultRole`. */
module AuthController {
  import opened Common

  type UserId = nat

  datatype User = User(id: UserId, email: string, passwordHash: string, role: string)

  /** `{ id, email, role }`: what is signed and returned as `user`. */
  datatype TokenPayload = TokenPayload(id: UserId, email: string, role: string)

  datatype Response = Ok(message: string) | Failure(status: int, message: string)

  datatype LoginResponse =
    | LoggedIn(token: string, user: TokenPayload)
    | LoginFailure(status: int, message: string)

  const MissingFields: string := "Email and password are required"
  const EmailInUse: string := "Email already in use"
  const Registered: string := "Registered"
  const InvalidCredentials: string := "Invalid credentials"
  /** What bcrypt throws when the password to compare is `undefined`. */
  const CompareArgsMissing: string := "data and hash arguments required"
  /** What the token library throws without a secret. */
  const SecretMissing: string := "secretOrPrivateKey must have a value"

  predicate EmailsUnique(users: seq<User>) {
    forall i, j :: 0 <= i < j < |users| ==> users[i].email != users[j].email
  }

  /** `User.findOne({ email })`. */
  function FindByEmail(users: seq<User>, email: string): (r: Option<User>)
    ensures r.Some? ==> r.value in users && r.value.email == email
    ensures r.None? <==> forall k :: 0 <= k < |users| ==> users[k].email != email
  {
    if users == [] then None
    else if users[0].email == email then Some(users[0])
    else FindByEmail(users[1..], email)
  }

  /** The answer of `register`; `fault` is the message of a failing hash or
      insert, if any. */
  function RegisterResult(users: seq<User>, email: string, password: string, fault: Option<string>): (r: Response)
    ensures r.Ok? ==> r.message == Registered
    ensures r.Failure? ==> r.status == 400 || r.status == 500
    ensures email == "" || password == "" ==> r == Failure(400, MissingFields)
    ensures email != "" && password != "" && FindByEmail(users, email).Some? ==> r == Failure(400, EmailInUse)
    ensures email != "" && password != "" && FindByEmail(users, email).None? ==>
              r == (if fault.Some? then Failure(500, fault.value) else Ok(Registered))
  {
    if email == "" || password == "" then Failure(400, MissingFields)
    else if FindByEmail(users, email).Some? then Failure(400, EmailInUse)
    else if fault.Some? then Failure(500, fault.value)
    else Ok(Registered)
  }

  /** The user table. */
  class UserStore {
    var users: seq<User>
    var nextId: UserId

    ghost predicate Valid()
      reads this
    {
      EmailsUnique(users) && forall k :: 0 <= k < |users| ==> users[k].id < nextId
    }

    constructor ()
      ensures Valid() && users == []
    {
      users, nextId := [], 0;
    }

    /** `register`: the user is stored with the hash of the password, and
        only when the answer is `Registered`. */
    method Register(email: string, password: string, hash: string -> string, defaultRole: string,
                    fault: Option<string>)
      returns (resp: Response)
      requires Valid()
      modifies this
      ensures Valid()
      ensures resp == RegisterResult(old(users), email, password, fault)
      ensures resp.Ok? ==> users == old(users) + [User(old(nextId), email, hash(password), defaultRole)]
      ensures resp.Failure? ==> users == old(users)
    {
      if email == "" || password == "" {
        return Failure(400, MissingFields);
      }
      var existing := FindByEmail(users, email);
      if existing.Some? {
        return Failure(400, EmailInUse);
      }
      if fault.Some? {
        return Failure(500, fault.value);
      }
      var hashed := hash(password);
      users := users + [User(nextId, email, hashed, defaultRole)];
      nextId := nextId + 1;
      resp := Ok(Registered);
    }
  }

  /** Registering an email that is already stored is refused, so a
      successful registration keeps emails unique. */
  lemma RegisterKeepsEmailsUnique(users: seq<User>, email: string, password: string, u: User)
    requires EmailsUnique(users)
    requires RegisterResult(users, email, password, None).Ok? && u.email == email
    ensures EmailsUnique(users + [u])
  {
    var s := users + [u];
    forall i, j | 0 <= i < j < |s| ensures s[i].email != s[j].email {
      if j == |users| {
        assert s[i] == users[i];
      } else {
        assert s[i] == users[i] && s[j] == users[j];
      }
    }
  }

  /** `login`.  The password is `None` when the body has none, which makes
      the comparison throw once a user is found.  `secret` is the signing
      secret ("" when unset). */
  function Login(users: seq<User>, email: string, password: Option<string>,
                 compare: (string, string) -> bool, sign: (TokenPayload, string) -> string,
                 secret: string): (r: LoginResponse)
    ensures r.LoggedIn? ==>
              var u := FindByEmail(users, email);
              u.Some? && password.Some? && compare(password.value, u.value.passwordHash) &&
              r.user == TokenPayload(u.value.id, u.value.email, u.value.role) &&
              r.token == sign(r.user, secret)
    ensures FindByEmail(users, email).None? ==> r == LoginFailure(400, InvalidCredentials)
    ensures FindByEmail(users, email).Some? && password.None? ==> r == LoginFailure(500, CompareArgsMissing)
    ensures var u := FindByEmail(users, email);
            u.Some? && password.Some? && !compare(password.value, u.value.passwordHash) ==>
              r == LoginFailure(400, InvalidCredentials)
    ensures var u := FindByEmail(users, email);
            u.Some? && password.Some? && compare(password.value, u.value.passwordHash) ==>
              var p := TokenPayload(u.value.id, u.value.email, u.value.role);
              r == (if secret == "" then LoginFailure(500, SecretMissing) else LoggedIn(sign(p, secret), p))
  {
    match FindByEmail(users, email)
    case None => LoginFailure(400, InvalidCredentials)
    case Some(user) =>
      if password.None? then LoginFailure(500, CompareArgsMissing)
      else if !compare(password.value, user.passwordHash) then LoginFailure(400, InvalidCredentials)
      else
        var payload := TokenPayload(user.id, user.email, user.role);
        if secret == "" then LoginFailure(500, SecretMissing)
        else LoggedIn(sign(payload, secret), payload)
  }

  /** An unknown email and a wrong password get the very same answer, so a
      caller cannot tell which accounts exist. */
  lemma LoginFailureIsUniform(users: seq<User>, unknown: string, known: string, wrong: string,
                              compare: (string, string) -> bool, sign: (TokenPayload, string) -> string,
                              secret: string)
    requires FindByEmail(users, unknown).None?
    requires FindByEmail(users, known).Some? && !compare(wrong, FindByEmail(users, known).value.passwordHash)
    ensures Login(users, unknown, Some(wrong), compare, sign, secret) ==
            Login(users, known, Some(wrong), compare, sign, secret)
    ensures Login(users, known, Some(wrong), compare, sign, secret) == LoginFailure(400, InvalidCredentials)
  {
  }

  /** Register then log in with the same password (under a hash the
      comparison accepts): the new account's id, email and role come back. */
  lemma RegisterThenLogin(store: seq<User>, nextId: UserId, email: string, password: string,
                          hash: string -> string, compare: (string, string) -> bool,
                          sign: (TokenPayload, string) -> string, role: string, secret: string)
    requires RegisterResult(store, email, password, None).Ok?
    requires compare(password, hash(password)) && secret != ""
    ensures var users := store + [User(nextId, email, hash(password), role)];
            Login(users, email, Some(password), compare, sign, secret) ==
              LoggedIn(sign(TokenPayload(nextId, email, role), secret), TokenPayload(nextId, email, role))
  {
    var users := store + [User(nextId, email, hash(password), role)];
    FindByEmailAppend(store, User(nextId, email, hash(password), role));
  }

  lemma {:induction false} FindByEmailAppend(users: seq<User>, u: User)
    requires FindByEmail(users, u.email).None?
    ensures FindByEmail(users + [u], u.email) == Some(u)
  {
    if users != [] {
      assert (users + [u])[1..] == users[1..] + [u];
      FindByEmailAppend(users[1..], u);
    }
  }
}
