/** The authentication service (src/services/auth.service.js): the
    registration check chain, credential validation, token generation, and
    `register` / `login` over the user store.

    `register` and `login` are methods over the `UserStore` object; each is
    proved equal to a pure specification (`RegisterSpec`, `LoginSpec`) about
    which the properties the source promises are stated as lemmas. */
module AuthService {
  import opened Wrappers
  import opened Text
  import opened Crypto
  import opened UsersModel

  const RequiredFields := "Username, email y contraseña son requeridos"
  const InvalidEmail := "Email inválido"
  const ShortPassword := "La contraseña debe tener al menos 6 caracteres"
  const ShortUsername := "El username debe tener al menos 3 caracteres"
  const UsernameTaken := "El username ya está en uso"
  const EmailTaken := "El email ya está registrado"
  const CredentialsRequired := "Usuario y contraseña son requeridos"
  const InvalidCredentials := "Credenciales inválidas"

  /** The six messages of `register`'s own checks, in checking order. */
  const RegisterValidationMessages: seq<string> :=
    [RequiredFields, InvalidEmail, ShortPassword, ShortUsername, UsernameTaken, EmailTaken]

  /** The two messages of `login`'s own checks. */
  const LoginValidationMessages: seq<string> := [CredentialsRequired, InvalidCredentials]

  // ---------------------------------------------------------------------------
  // The e-mail format check

  /** A character of the class `[^\s@]`. */
  predicate IsEmailChar(c: char)
  {
    c != '@' && !IsJsSpace(c)
  }

  /** What `/^[^\s@]+@[^\s@]+\.[^\s@]+$/` matches, read off the pattern: the
      string splits at an `@` (position `at`) and a later `.` (position `dot`)
      into three non-empty runs, and every character except that `@` is of
      the class `[^\s@]` (which contains `.`). */
  ghost predicate MatchesEmailPattern(s: string)
  {
    exists at, dot | 0 < at && at + 1 < dot < |s| - 1 ::
      s[at] == '@' && s[dot] == '.' && forall k | 0 <= k < |s| && k != at :: IsEmailChar(s[k])
  }

  /** Index of the first `c` in `s`, or `|s|`. */
  function IndexOf(s: string, c: char): (i: nat)
    ensures i <= |s|
    ensures forall k | 0 <= k < i :: s[k] != c
    ensures i < |s| ==> s[i] == c
  {
    if s == [] then 0 else if s[0] == c then 0 else 1 + IndexOf(s[1..], c)
  }

  /** `d` has a `.` that is neither its first nor its last character. */
  predicate HasInteriorDot(d: string)
  {
    exists k | 0 < k < |d| - 1 :: d[k] == '.'
  }

  /** The email check, stated structurally: exactly one `@`, no white space,
      a non-empty part before the `@`, and a domain with an interior `.`. */
  predicate ValidEmail(email: string)
  {
    var at := IndexOf(email, '@');
    && 0 < at < |email|
    && (forall k | 0 <= k < |email| && k != at :: IsEmailChar(email[k]))
    && HasInteriorDot(email[at + 1..])
  }

  /** The structural check accepts exactly the strings the regular expression
      matches. */
  lemma ValidEmailIffPattern(s: string)
    ensures ValidEmail(s) <==> MatchesEmailPattern(s)
  {
    var at := IndexOf(s, '@');
    if ValidEmail(s) {
      var d := s[at + 1..];
      var k :| 0 < k < |d| - 1 && d[k] == '.';
      var dot := at + 1 + k;
      assert s[dot] == '.';
      assert 0 < at && at + 1 < dot < |s| - 1;
    }
    if MatchesEmailPattern(s) {
      var at', dot' :| 0 < at' && at' + 1 < dot' < |s| - 1 &&
        s[at'] == '@' && s[dot'] == '.' && forall k | 0 <= k < |s| && k != at' :: IsEmailChar(s[k]);
      assert at == at';
      var d := s[at + 1..];
      assert d[dot' - at - 1] == '.';
    }
  }

  /** A well-formed address is accepted. */
  lemma EmailAccepted()
    ensures ValidEmail("a@b.c")
  {
    var s := "a@b.c";
    assert IndexOf(s, '@') == 1;
    assert s[2..][1] == '.';
    assert forall k | 0 <= k < |s| && k != 1 :: s[k] in "ab.c";
  }

  /** Two adjacent dots in the domain are accepted, since `.` belongs to `[^\s@]`. */
  lemma EmailDoubleDotAccepted()
    ensures ValidEmail("a@b..c")
  {
    var s := "a@b..c";
    assert IndexOf(s, '@') == 1;
    assert s[2..][1] == '.';
    assert forall k | 0 <= k < |s| && k != 1 :: s[k] in "ab.c";
  }

  /** A domain without an interior dot is refused. */
  lemma EmailWithoutDotRejected()
    ensures !ValidEmail("a@bc") && !ValidEmail("a@.c") && !ValidEmail("a@c.")
  {
    assert IndexOf("a@bc", '@') == 1;
    assert IndexOf("a@.c", '@') == 1;
    assert IndexOf("a@c.", '@') == 1;
  }

  /** White space and a second `@` are refused. */
  lemma EmailSpaceOrSecondAtRejected()
    ensures !ValidEmail("a b@c.d") && !ValidEmail("a@b@c.d")
  {
    assert IndexOf("a b@c.d", '@') == 3;
    assert !IsEmailChar("a b@c.d"[1]);
    assert IndexOf("a@b@c.d", '@') == 1;
    assert !IsEmailChar("a@b@c.d"[3]);
  }

  // ---------------------------------------------------------------------------
  // The local checks of register, the token

  /** The four checks `register` makes before touching the store, in order;
      the first that fails decides the message. A missing field is the empty
      string (JavaScript's falsy string). */
  function CheckRegistration(username: string, email: string, password: string): (e: Option<string>)
    ensures e == Some(RequiredFields) <==> (username == [] || email == [] || password == [])
    ensures e == Some(InvalidEmail) <==> (username != [] && email != [] && password != [] && !ValidEmail(email))
    ensures e == Some(ShortPassword) <==>
      (username != [] && email != [] && password != [] && ValidEmail(email) && |password| < 6)
    ensures e == Some(ShortUsername) <==>
      (username != [] && ValidEmail(email) && |password| >= 6 && |username| < 3)
    ensures e == None <==> (ValidEmail(email) && |password| >= 6 && |username| >= 3)
  {
    if username == [] || email == [] || password == [] then Some(RequiredFields)
    else if !ValidEmail(email) then Some(InvalidEmail)
    else if |password| < 6 then Some(ShortPassword)
    else if |username| < 3 then Some(ShortUsername)
    else None
  }

  /** The payload of `generateToken`. */
  function Payload(user: PublicUser): Claims
  {
    Claims(user.id, user.username, user.email)
  }

  /** `generateToken`: sign the payload with `iat` the current clock (seconds)
      and `exp` 24 hours later. */
  function GenerateToken(signer: Signer, user: PublicUser, clock: nat): (t: string)
    ensures SignerAxioms(signer) ==>
      && t != [] && ' ' !in t
      && signer.verify(t, clock) == Verified(Decoded(Claims(user.id, user.username, user.email), clock, clock + TokenLifetime))
  {
    signer.sign(Decoded(Payload(user), clock, clock + TokenLifetime))
  }

  /** A generated token verifies to the user's id, username and email (and
      nothing else) for 24 hours, and throws `TokenExpiredError` from then on. */
  lemma GeneratedTokenVerifies(signer: Signer, user: PublicUser, clock: nat, now: nat)
    requires SignerAxioms(signer)
    ensures signer.verify(GenerateToken(signer, user, clock), now) ==
      if now < clock + TokenLifetime
      then Verified(Decoded(Claims(user.id, user.username, user.email), clock, clock + TokenLifetime))
      else Threw(TokenExpiredError)
  {
    var d := Decoded(Payload(user), clock, clock + TokenLifetime);
    assert GenerateToken(signer, user, clock) == signer.sign(d);
  }

  // ---------------------------------------------------------------------------
  // register and login, as specifications

  /** What a call needs from the world: the hasher and its salt, the signer,
      the clock in seconds (for the token), the timestamp string (for the
      record) and the id the store assigns to a new document. */
  datatype AuthEnv = AuthEnv(hasher: Hasher, salt: nat, signer: Signer, clock: nat, stamp: string, newId: string)

  /** Store errors, one per store call `register` makes (`None`: the call succeeds). */
  datatype RegisterFaults = RegisterFaults(byUsername: Option<string>, byEmail: Option<string>, create: Option<string>)

  datatype AuthResult = AuthResult(token: string, user: PublicUser)

  /** `register` as a function of the table before the call: the outcome and
      the table after it. */
  function RegisterSpec(users: seq<UserRecord>, username: string, email: string, password: string,
                        env: AuthEnv, faults: RegisterFaults): (out: (Result<AuthResult, string>, seq<UserRecord>))
    ensures out.0.Failure? ==> out.1 == users
    ensures out.0.Success? ==>
      && out.1 == users + [NewRecord(NewUser(username, email, password), env.hasher, env.salt, env.newId, env.stamp)]
      && out.0.value.user == WithoutPassword(out.1[|users|])
      && out.0.value.token == GenerateToken(env.signer, out.0.value.user, env.clock)
  {
    match CheckRegistration(username, email, password)
    case Some(message) => (Failure(message), users)
    case None =>
      if faults.byUsername.Some? then (Failure(faults.byUsername.value), users)
      else if FirstMatch(users, Username, username).Some? then (Failure(UsernameTaken), users)
      else if faults.byEmail.Some? then (Failure(faults.byEmail.value), users)
      else if FirstMatch(users, Email, email).Some? then (Failure(EmailTaken), users)
      else if faults.create.Some? then (Failure(faults.create.value), users)
      else
        var record := NewRecord(NewUser(username, email, password), env.hasher, env.salt, env.newId, env.stamp);
        var user := WithoutPassword(record);
        (Success(AuthResult(GenerateToken(env.signer, user, env.clock), user)), users + [record])
  }

  /** `validateCredentials` as a function of the table: the first user with
      that username, without its password, when the password verifies
      against its hash; nothing when the username is unknown or the password
      does not match. */
  function CredentialsSpec(users: seq<UserRecord>, username: string, password: string,
                           hasher: Hasher, fault: Option<string>): (r: Result<Option<PublicUser>, string>)
    ensures fault.Some? ==> r == Failure(fault.value)
    ensures fault.None? ==> r.Success?
    ensures fault.None? && (forall i | 0 <= i < |users| :: users[i].username != username) ==> r == Success(None)
    ensures r.Success? && r.value.Some? ==>
      exists i | 0 <= i < |users| ::
        && users[i].username == username
        && VerifyPassword(hasher, password, users[i].password)
        && r.value.value == WithoutPassword(users[i])
    ensures fault.None? ==>
      forall i | 0 <= i < |users| && users[i].username == username
                 && (forall j | 0 <= j < i :: users[j].username != username) ::
        r == Success(if VerifyPassword(hasher, password, users[i].password) then Some(WithoutPassword(users[i])) else None)
  {
    if fault.Some? then Failure(fault.value)
    else match FirstMatch(users, Username, username)
      case None => Success(None)
      case Some(record) =>
        if !VerifyPassword(hasher, password, record.password) then Success(None)
        else Success(Some(WithoutPassword(record)))
  }

  /** `login` as a function of the table. */
  function LoginSpec(users: seq<UserRecord>, username: string, password: string,
                     env: AuthEnv, fault: Option<string>): (r: Result<AuthResult, string>)
    ensures r.Success? ==> r.value.token == GenerateToken(env.signer, r.value.user, env.clock)
  {
    if username == [] || password == [] then Failure(CredentialsRequired)
    else match CredentialsSpec(users, username, password, env.hasher, fault)
      case Failure(e) => Failure(e)
      case Success(None) => Failure(InvalidCredentials)
      case Success(Some(user)) => Success(AuthResult(GenerateToken(env.signer, user, env.clock), user))
  }

  // ---------------------------------------------------------------------------
  // The properties

  /** The first match is determined: any answer meeting `IsFirstMatch` is
      the one `FirstMatch` computes. */
  lemma FirstMatchDetermined(users: seq<UserRecord>, key: Key, value: string, r: Option<UserRecord>)
    requires IsFirstMatch(users, key, value, r)
    ensures r == FirstMatch(users, key, value)
  {
    var i := FirstIndex(users, key, value);
    if r.Some? {
      var j :| 0 <= j < |users| && users[j] == r.value && KeyOf(r.value, key) == value
               && forall m | 0 <= m < j :: KeyOf(users[m], key) != value;
      assert i <= j;
      assert i == j;
    }
  }

  /** The outcome of `register` in terms of the order of its checks: the first
      failing one decides, and the store is consulted only after the four
      local checks pass; with a store that does not fail, the username is
      checked before the email and a record is added exactly when both are
      unused. Every failure is one of its own six messages or a store error
      passed through. */
  lemma RegisterCheckOrder(users: seq<UserRecord>, username: string, email: string, password: string,
                           env: AuthEnv, faults: RegisterFaults)
    ensures var out := RegisterSpec(users, username, email, password, env, faults);
      && (CheckRegistration(username, email, password).Some? ==>
            out.0 == Failure(CheckRegistration(username, email, password).value))
      && (faults == RegisterFaults(None, None, None) && CheckRegistration(username, email, password).None? ==>
            && (out.0 == Failure(UsernameTaken) <==> exists i | 0 <= i < |users| :: users[i].username == username)
            && (out.0 == Failure(EmailTaken) <==>
                  (forall i | 0 <= i < |users| :: users[i].username != username)
                  && exists i | 0 <= i < |users| :: users[i].email == email))
      && (out.0.Success? <==>
            && CheckRegistration(username, email, password).None?
            && faults == RegisterFaults(None, None, None)
            && (forall i | 0 <= i < |users| :: users[i].username != username && users[i].email != email))
      && (out.0.Failure? ==>
            out.0.error in RegisterValidationMessages
            || Some(out.0.error) in [faults.byUsername, faults.byEmail, faults.create])
  {
    var byName := FirstMatch(users, Username, username);
    var byMail := FirstMatch(users, Email, email);
    if byName.Some? {
      var i :| 0 <= i < |users| && users[i] == byName.value && KeyOf(byName.value, Username) == username;
      assert users[i].username == username;
    }
    if byMail.Some? {
      var i :| 0 <= i < |users| && users[i] == byMail.value && KeyOf(byMail.value, Email) == email;
      assert users[i].email == email;
    }
    assert UsernameTaken != EmailTaken;
  }

  /** Usernames and emails are unique in the table. */
  ghost predicate UniqueKeys(users: seq<UserRecord>)
  {
    forall i, j | 0 <= i < j < |users| :: users[i].username != users[j].username && users[i].email != users[j].email
  }

  /** Calls made one after another keep usernames and emails unique. */
  lemma RegisterKeepsKeysUnique(users: seq<UserRecord>, username: string, email: string, password: string,
                                env: AuthEnv, faults: RegisterFaults)
    requires UniqueKeys(users)
    ensures UniqueKeys(RegisterSpec(users, username, email, password, env, faults).1)
  {
    RegisterCheckOrder(users, username, email, password, env, faults);
  }

  /** Enumeration resistance: once both fields are given and the lookup
      succeeds, `login` fails with the one message "Credenciales inválidas"
      exactly when the username is unknown or the password does not match it. */
  lemma LoginEnumerationResistance(users: seq<UserRecord>, username: string, password: string, env: AuthEnv)
    requires username != [] && password != []
    ensures var r := LoginSpec(users, username, password, env, None);
      && ((forall i | 0 <= i < |users| :: users[i].username != username) ==> r == Failure(InvalidCredentials))
      && (forall i | 0 <= i < |users| && users[i].username == username
                     && (forall j | 0 <= j < i :: users[j].username != username) ::
            !VerifyPassword(env.hasher, password, users[i].password) ==> r == Failure(InvalidCredentials))
      && (r.Failure? <==> r == Failure(InvalidCredentials))
  {
  }

  /** An empty username or password fails before the store is read: the
      outcome depends neither on the table nor on a store error. */
  lemma LoginRequiresFieldsFirst(users1: seq<UserRecord>, users2: seq<UserRecord>, username: string, password: string,
                                 env: AuthEnv, fault1: Option<string>, fault2: Option<string>)
    requires username == [] || password == []
    ensures LoginSpec(users1, username, password, env, fault1) == Failure(CredentialsRequired)
    ensures LoginSpec(users1, username, password, env, fault1) == LoginSpec(users2, username, password, env, fault2)
  {
  }

  /** Registration followed by login with the same credentials (and a hasher
      and store that behave) succeeds and returns the very user `register`
      returned. */
  lemma RegisterThenLogin(users: seq<UserRecord>, username: string, email: string, password: string,
                          env: AuthEnv, env2: AuthEnv)
    requires HasherAxioms(env.hasher) && env2.hasher == env.hasher
    requires RegisterSpec(users, username, email, password, env, RegisterFaults(None, None, None)).0.Success?
    ensures var (reg, users') := RegisterSpec(users, username, email, password, env, RegisterFaults(None, None, None));
      var login := LoginSpec(users', username, password, env2, None);
      && login.Success?
      && login.value.user == reg.value.user
      && login.value.token == GenerateToken(env2.signer, reg.value.user, env2.clock)
  {
    var (reg, users') := RegisterSpec(users, username, email, password, env, RegisterFaults(None, None, None));
    RegisterCheckOrder(users, username, email, password, env, RegisterFaults(None, None, None));
    var record := NewRecord(NewUser(username, email, password), env.hasher, env.salt, env.newId, env.stamp);
    assert users' == users + [record];
    var i := FirstIndex(users', Username, username);
    assert forall m | 0 <= m < |users| :: users'[m] == users[m];
    assert i == |users|;
    assert VerifyPassword(env.hasher, password, record.password);
  }

  /** Every stored user can log in: with unique usernames, a record whose
      hash was made from `p` is found by its username, and `login` with `p`
      returns it without the password, with a token generated from it, unless
      a field is empty. */
  lemma StoredUserCanLogin(users: seq<UserRecord>, i: int, p: string, salt: nat, env: AuthEnv)
    requires UniqueKeys(users) && 0 <= i < |users|
    requires HasherAxioms(env.hasher) && users[i].password == env.hasher.hash(p, salt)
    ensures LoginSpec(users, users[i].username, p, env, None) ==
      if users[i].username == [] || p == [] then Failure(CredentialsRequired)
      else Success(AuthResult(GenerateToken(env.signer, WithoutPassword(users[i]), env.clock), WithoutPassword(users[i])))
  {
    assert forall j | 0 <= j < i :: users[j].username != users[i].username;
    assert VerifyPassword(env.hasher, p, users[i].password);
  }

  // ---------------------------------------------------------------------------
  // The service's operations over the store object

  /** `validateCredentials`. */
  method ValidateCredentials(store: UserStore, username: string, password: string, hasher: Hasher, fault: Option<string>)
    returns (r: Result<Option<PublicUser>, string>)
    ensures r == CredentialsSpec(store.users, username, password, hasher, fault)
  {
    var found := store.FindByUsername(username, fault);
    if found.Failure? {
      return Failure(found.error);
    }
    FirstMatchDetermined(store.users, Username, username, found.value);
    if found.value.None? {
      return Success(None);
    }
    var user := found.value.value;
    var valid := VerifyPassword(hasher, password, user.password);
    if !valid {
      return Success(None);
    }
    r := Success(Some(WithoutPassword(user)));
  }

  /** `login`. */
  method Login(store: UserStore, username: string, password: string, env: AuthEnv, fault: Option<string>)
    returns (r: Result<AuthResult, string>)
    ensures r == LoginSpec(store.users, username, password, env, fault)
  {
    if username == [] || password == [] {
      return Failure(CredentialsRequired);
    }
    var user := ValidateCredentials(store, username, password, env.hasher, fault);
    if user.Failure? {
      return Failure(user.error);
    }
    if user.value.None? {
      return Failure(InvalidCredentials);
    }
    var token := GenerateToken(env.signer, user.value.value, env.clock);
    r := Success(AuthResult(token, user.value.value));
  }

  /** `register`: the local checks, the two uniqueness lookups, then `create`
      and a token for the user `create` returned. */
  method Register(store: UserStore, username: string, email: string, password: string,
                  env: AuthEnv, faults: RegisterFaults)
    returns (r: Result<AuthResult, string>)
    modifies store
    ensures (r, store.users) == RegisterSpec(old(store.users), username, email, password, env, faults)
  {
    var invalid := CheckRegistration(username, email, password);
    if invalid.Some? {
      return Failure(invalid.value);
    }
    var existingUser := store.FindByUsername(username, faults.byUsername);
    if existingUser.Failure? {
      return Failure(existingUser.error);
    }
    FirstMatchDetermined(store.users, Username, username, existingUser.value);
    if existingUser.value.Some? {
      return Failure(UsernameTaken);
    }
    var existingEmail := store.FindByEmail(email, faults.byEmail);
    if existingEmail.Failure? {
      return Failure(existingEmail.error);
    }
    FirstMatchDetermined(store.users, Email, email, existingEmail.value);
    if existingEmail.value.Some? {
      return Failure(EmailTaken);
    }
    var created := store.Create(NewUser(username, email, password), env.hasher, env.salt, env.newId, env.stamp, faults.create);
    if created.Failure? {
      return Failure(created.error);
    }
    var token := GenerateToken(env.signer, created.value, env.clock);
    r := Success(AuthResult(token, created.value));
  }
}
