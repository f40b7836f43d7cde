/** The authentication controller (src/controllers/auth.controller.js): the
    request body's fields are checked for presence, the service is called,
    and its outcome (a result, or a thrown error's message) is turned into a
    status and a JSON body by matching substrings of the message.

    Each handler is a function of the body and of the service's outcome; the
    outcome is consulted only once the presence check passes, which is how
    "the service is not called" reads for a function. */
module AuthController {
  import opened Wrappers
  import opened Text
  import opened UsersModel
  import opened Http
  import AuthService

  const RegisterMissing := "Username, email y contraseña son requeridos"
  const Registered := "Usuario registrado exitosamente"
  const RegisterFailed := "Error al registrar usuario"
  const LoginMissing := "Usuario y contraseña son requeridos"
  const LoggedIn := "Login exitoso"
  const LoginFailed := "Error al realizar login"

  /** `req.body` of a registration; a missing field is the empty string. */
  datatype RegisterBody = RegisterBody(username: string, email: string, password: string)

  /** `req.body` of a login. */
  datatype LoginBody = LoginBody(username: string, password: string)

  /** `!process.env.NODE_ENV || process.env.NODE_ENV === "development"`. */
  predicate IsDevelopment(nodeEnv: Option<string>)
  {
    nodeEnv.None? || nodeEnv.value == [] || nodeEnv.value == "development"
  }

  /** The messages `register` answers with 400. */
  predicate IsRegisterClientError(message: string)
  {
    Contains(message, "requeridos") || Contains(message, "inválido")
    || Contains(message, "caracteres") || Contains(message, "ya está")
  }

  /** The messages `login` answers with 401. */
  predicate IsLoginClientError(message: string)
  {
    Contains(message, "requeridos") || Contains(message, "inválidas")
  }

  /** `register(req, res)`. */
  function Register(body: RegisterBody, outcome: Result<AuthService.AuthResult, string>, nodeEnv: Option<string>): (r: Reply)
    ensures body.username == [] || body.email == [] || body.password == [] ==> r == Fail(400, RegisterMissing)
    ensures body.username != [] && body.email != [] && body.password != [] ==>
      match outcome
      case Success(result) =>
        r == Reply(201, true, Some(Registered), Session(result.token, result.user), None, None)
      case Failure(message) =>
        && (r.status == 400 <==> IsRegisterClientError(message))
        && (r.status == 400 ==> r == Fail(400, message))
        && (r.status != 400 ==>
              r == Reply(500, false, Some(RegisterFailed), NoData, None,
                         if IsDevelopment(nodeEnv) then Some(message) else None))
  {
    if body.username == [] || body.email == [] || body.password == [] then Fail(400, RegisterMissing)
    else match outcome
      case Success(result) => Reply(201, true, Some(Registered), Session(result.token, result.user), None, None)
      case Failure(message) =>
        if IsRegisterClientError(message) then Fail(400, message)
        else Reply(500, false, Some(RegisterFailed), NoData, None, if IsDevelopment(nodeEnv) then Some(message) else None)
  }

  /** `login(req, res)`. */
  function Login(body: LoginBody, outcome: Result<AuthService.AuthResult, string>): (r: Reply)
    ensures body.username == [] || body.password == [] ==> r == Fail(400, LoginMissing)
    ensures body.username != [] && body.password != [] ==>
      match outcome
      case Success(result) => r == Reply(200, true, Some(LoggedIn), Session(result.token, result.user), None, None)
      case Failure(message) =>
        r == if IsLoginClientError(message) then Fail(401, message) else Fail(500, LoginFailed)
  {
    if body.username == [] || body.password == [] then Fail(400, LoginMissing)
    else match outcome
      case Success(result) => Reply(200, true, Some(LoggedIn), Session(result.token, result.user), None, None)
      case Failure(message) => if IsLoginClientError(message) then Fail(401, message) else Fail(500, LoginFailed)
  }

  /** A 500 happens exactly when the service failed with a message carrying
      none of the client-error markers; the reply's message is then the fixed
      text, and the service's message appears only as `register`'s `error`
      field in development. */
  lemma ServerErrorsAreGeneric(rb: RegisterBody, lb: LoginBody, reg: Result<AuthService.AuthResult, string>,
                               log: Result<AuthService.AuthResult, string>, nodeEnv: Option<string>)
    ensures Register(rb, reg, nodeEnv).status == 500 <==>
      rb.username != [] && rb.email != [] && rb.password != [] && reg.Failure? && !IsRegisterClientError(reg.error)
    ensures Register(rb, reg, nodeEnv).status == 500 ==>
      && Register(rb, reg, nodeEnv).message == Some(RegisterFailed)
      && (Register(rb, reg, nodeEnv).debug.Some? <==> IsDevelopment(nodeEnv))
    ensures Login(lb, log).status == 500 <==>
      lb.username != [] && lb.password != [] && log.Failure? && !IsLoginClientError(log.error)
    ensures Login(lb, log).status == 500 ==> Login(lb, log) == Fail(500, LoginFailed)
  {
  }

  /** Every message `register`'s own checks throw is answered 400. */
  lemma RegisterValidationMessagesAre400()
    ensures forall m | m in AuthService.RegisterValidationMessages :: IsRegisterClientError(m)
  {
    MissingFieldsMarker();
    InvalidEmailMarker();
    LengthMarkers();
    TakenMarkers();
  }

  lemma MissingFieldsMarker()
    ensures Contains(AuthService.RequiredFields, "requeridos")
  {
    ContainsAt(AuthService.RequiredFields, "requeridos", 33);
  }

  lemma InvalidEmailMarker()
    ensures Contains(AuthService.InvalidEmail, "inválido")
  {
    ContainsAt(AuthService.InvalidEmail, "inválido", 6);
  }

  lemma LengthMarkers()
    ensures Contains(AuthService.ShortPassword, "caracteres")
    ensures Contains(AuthService.ShortUsername, "caracteres")
  {
    ContainsAt(AuthService.ShortPassword, "caracteres", 36);
    ContainsAt(AuthService.ShortUsername, "caracteres", 34);
  }

  lemma TakenMarkers()
    ensures Contains(AuthService.UsernameTaken, "ya está")
    ensures Contains(AuthService.EmailTaken, "ya está")
  {
    ContainsAt(AuthService.UsernameTaken, "ya está", 12);
    ContainsAt(AuthService.EmailTaken, "ya está", 9);
  }

  /** Both messages `login`'s own checks throw are answered 401. */
  lemma LoginValidationMessagesAre401()
    ensures forall m | m in AuthService.LoginValidationMessages :: IsLoginClientError(m)
  {
    ContainsAt(AuthService.CredentialsRequired, "requeridos", 25);
    ContainsAt(AuthService.InvalidCredentials, "inválidas", 13);
  }

  /** With a store that does not fail, registration is answered 201 or 400 and
      never 500; 201 exactly when a record was added. */
  lemma RegisterWithHealthyStore(users: seq<UserRecord>, body: RegisterBody, env: AuthService.AuthEnv, nodeEnv: Option<string>)
    ensures var out := AuthService.RegisterSpec(users, body.username, body.email, body.password, env,
                                                AuthService.RegisterFaults(None, None, None));
      var r := Register(body, out.0, nodeEnv);
      (r.status == 201 <==> |out.1| == |users| + 1) && (r.status != 201 ==> r.status == 400)
  {
    var out := AuthService.RegisterSpec(users, body.username, body.email, body.password, env,
                                        AuthService.RegisterFaults(None, None, None));
    AuthService.RegisterCheckOrder(users, body.username, body.email, body.password, env,
                                   AuthService.RegisterFaults(None, None, None));
    RegisterValidationMessagesAre400();
  }

  /** Enumeration resistance as the client sees it: with a store that does
      not fail, an unknown username and a wrong password get the same reply,
      401 "Credenciales inválidas"; the only other answers are 200 and the
      400 of the presence check. */
  lemma LoginWithHealthyStore(users: seq<UserRecord>, body: LoginBody, env: AuthService.AuthEnv)
    requires body.username != [] && body.password != []
    ensures var r := Login(body, AuthService.LoginSpec(users, body.username, body.password, env, None));
      && (r.status == 200 || r == Fail(401, AuthService.InvalidCredentials))
      && ((forall i | 0 <= i < |users| :: users[i].username != body.username) ==> r == Fail(401, AuthService.InvalidCredentials))
  {
    AuthService.LoginEnumerationResistance(users, body.username, body.password, env);
    LoginValidationMessagesAre401();
  }
}
