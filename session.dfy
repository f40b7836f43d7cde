/** The browser-side session of public/js/session.js: a token and a user
    kept in two fields and mirrored into `localStorage` under "authToken" and
    "authUser". The transitions are specified as functions on `State`; the
    class `SessionManager` performs them in place. */
module Session {
  import opened Wrappers
  import opened Crypto
  import UsersModel
  import AuthService
  import Middleware

  const TokenKey := "authToken"
  const UserKey := "authUser"
  const FieldsRequired := "Token, id y username del usuario son requeridos"
  const NoToken := "No hay token disponible"
  const NotAuthenticated := "No autenticado"
  const SessionExpired := "Sesión expirada o no autorizado"
  const Home := "/"

  /** The user object the client keeps: what the server returned as `user`. */
  datatype ClientUser = ClientUser(id: string, username: string, email: string)

  /** `JSON.parse` of the stored text: a user, `null` or a non-object
      (`Parsed(None)`), or a `SyntaxError`. */
  datatype Parsed = Parsed(user: Option<ClientUser>) | SyntaxError

  /** `JSON.stringify` and `JSON.parse` for users. */
  datatype Codec = Codec(stringify: ClientUser -> string, parse: string -> Parsed)

  /** What the model assumes of JSON: a user's text is non-empty and parses
      back to the same user. */
  ghost predicate CodecAxioms(c: Codec)
  {
    forall u :: c.stringify(u) != [] && c.parse(c.stringify(u)) == Parsed(Some(u))
  }

  /** The session: the two fields and the storage map. */
  datatype State = State(token: Option<string>, user: Option<ClientUser>, items: map<string, string>)

  /** `localStorage.getItem(key)`: `null` for an absent key. */
  function Lookup(items: map<string, string>, key: string): (v: Option<string>)
    ensures v.Some? <==> key in items
    ensures v.Some? ==> v.value == items[key]
  {
    if key in items then Some(items[key]) else None
  }

  /** JavaScript truthiness of a string that may be `null`. */
  predicate Present(s: Option<string>)
  {
    s.Some? && s.value != []
  }

  /** `isAuthenticated()`: token, user, user.id and user.username all truthy. */
  predicate Authenticated(s: State)
    ensures Authenticated(s) ==> AuthHeaders(s.token).Success?
  {
    Present(s.token) && s.user.Some? && s.user.value.id != [] && s.user.value.username != []
  }

  /** The user that the stored text stands for: none when the key is absent
      or empty, or when the text does not parse. */
  function StoredUser(items: map<string, string>, codec: Codec): Option<ClientUser>
  {
    var text := Lookup(items, UserKey);
    if !Present(text) then None
    else match codec.parse(text.value)
      case Parsed(u) => u
      case SyntaxError => None
  }

  /** The invariant `SessionManager` keeps: the fields are what the storage
      holds. */
  ghost predicate Mirrors(s: State, codec: Codec)
  {
    s.token == Lookup(s.items, TokenKey) && s.user == StoredUser(s.items, codec)
  }

  /** `clearSession()`. */
  function Cleared(s: State): (r: State)
    ensures TokenKey !in r.items && UserKey !in r.items
    ensures forall k | k != TokenKey && k != UserKey :: Lookup(r.items, k) == Lookup(s.items, k)
    ensures r.token == None && r.user == None
  {
    State(None, None, s.items - {TokenKey, UserKey})
  }

  /** `_parseUser()`: the user read back, and the state after it (cleared
      when the stored text does not parse). */
  function ReadUser(s: State, codec: Codec): (Option<ClientUser>, State)
  {
    var text := Lookup(s.items, UserKey);
    if !Present(text) then (None, s)
    else match codec.parse(text.value)
      case Parsed(u) => (u, s)
      case SyntaxError => (None, Cleared(s))
  }

  /** `new SessionManager()` over the storage `items`: the token is read,
      then the user is parsed. */
  function Loaded(items: map<string, string>, codec: Codec): State
  {
    var (u, s) := ReadUser(State(Lookup(items, TokenKey), None, items), codec);
    s.(user := u)
  }

  /** `saveSession(token, user)`: the new state, or the error it throws. */
  function Saved(s: State, token: string, user: Option<ClientUser>, codec: Codec): Result<State, string>
  {
    if token == [] || user.None? || user.value.id == [] || user.value.username == [] then Failure(FieldsRequired)
    else Success(State(Some(token), user, s.items[TokenKey := token][UserKey := codec.stringify(user.value)]))
  }

  /** `getAuthHeaders()`. */
  function AuthHeaders(token: Option<string>): Result<map<string, string>, string>
  {
    if !Present(token) then Failure(NoToken)
    else Success(map["Authorization" := "Bearer " + token.value, "Content-Type" := "application/json"])
  }

  /** The observable part of `authenticatedFetch(url, options)` once the
      response's status is known: the result, the new state, the headers
      sent (none when no request is made) and where the window is sent. */
  datatype FetchOutcome = FetchOutcome(result: Result<nat, string>, state: State,
                                       sent: Option<map<string, string>>, redirect: Option<string>)

  /** `authenticatedFetch`, with the caller's `options.headers` as `extra`
      and the server's answer as `status`. */
  function Fetch(s: State, extra: map<string, string>, status: nat): FetchOutcome
  {
    if !Authenticated(s) then FetchOutcome(Failure(NotAuthenticated), Cleared(s), None, Some(Home))
    else
      var headers := AuthHeaders(s.token).value + extra;
      if status == 401 || status == 403 then FetchOutcome(Failure(SessionExpired), Cleared(s), Some(headers), Some(Home))
      else FetchOutcome(Success(status), s, Some(headers), None)
  }

  // Properties of the transitions

  /** A freshly constructed manager mirrors its storage; when the stored user
      does not parse, both keys are removed and the session is empty. */
  lemma LoadedMirrors(items: map<string, string>, codec: Codec)
    ensures Mirrors(Loaded(items, codec), codec)
    ensures Present(Lookup(items, UserKey)) && codec.parse(items[UserKey]).SyntaxError? ==>
      Loaded(items, codec) == Cleared(State(None, None, items)) && !Authenticated(Loaded(items, codec))
    ensures !(Present(Lookup(items, UserKey)) && codec.parse(items[UserKey]).SyntaxError?) ==>
      Loaded(items, codec).items == items
  {
    var s := Loaded(items, codec);
    var text := Lookup(items, UserKey);
    if Present(text) && codec.parse(text.value).SyntaxError? {
      assert Lookup(s.items, UserKey) == None;
    }
  }

  /** `saveSession` throws exactly when a required field is missing; when it
      does not, the fields and the two keys hold the given session, the
      session is authenticated, no other key changes, and the invariant is
      re-established whatever the state before. */
  lemma SavedEffect(s: State, token: string, user: Option<ClientUser>, codec: Codec)
    requires CodecAxioms(codec)
    ensures Saved(s, token, user, codec).Failure? <==>
      token == [] || user.None? || user.value.id == [] || user.value.username == []
    ensures Saved(s, token, user, codec).Failure? ==> Saved(s, token, user, codec).error == FieldsRequired
    ensures Saved(s, token, user, codec).Success? ==>
      var r := Saved(s, token, user, codec).value;
      && r.token == Some(token) && r.user == user
      && Lookup(r.items, TokenKey) == Some(token)
      && Lookup(r.items, UserKey) == Some(codec.stringify(user.value))
      && (forall k | k != TokenKey && k != UserKey :: Lookup(r.items, k) == Lookup(s.items, k))
      && Authenticated(r)
      && Mirrors(r, codec)
  {
    if Saved(s, token, user, codec).Success? {
      var r := Saved(s, token, user, codec).value;
      assert Lookup(r.items, UserKey) == Some(codec.stringify(user.value));
      assert codec.parse(codec.stringify(user.value)) == Parsed(user);
    }
  }

  /** A saved session survives a page load: a manager built over the storage
      `saveSession` left behind has the same token and user. */
  lemma {:induction false} ReloadRestoresSession(s: State, token: string, user: Option<ClientUser>, codec: Codec)
    requires CodecAxioms(codec)
    requires Saved(s, token, user, codec).Success?
    ensures Loaded(Saved(s, token, user, codec).value.items, codec) == Saved(s, token, user, codec).value
  {
    var r := Saved(s, token, user, codec).value;
    SavedEffect(s, token, user, codec);
    assert codec.parse(r.items[UserKey]) == Parsed(user);
  }

  /** `clearSession` empties the session, keeps the invariant, and a second
      call changes nothing. */
  lemma ClearedEffect(s: State, codec: Codec)
    ensures !Authenticated(Cleared(s))
    ensures Mirrors(Cleared(s), codec)
    ensures Cleared(Cleared(s)) == Cleared(s)
  {
    assert Lookup(Cleared(s).items, UserKey) == None;
  }

  /** `getAuthHeaders` throws exactly when there is no token; otherwise the
      header is the token behind "Bearer ". */
  lemma AuthHeadersEffect(token: Option<string>)
    ensures AuthHeaders(token).Failure? <==> !Present(token)
    ensures AuthHeaders(token).Success? ==>
      "Authorization" in AuthHeaders(token).value &&
      AuthHeaders(token).value["Authorization"] == "Bearer " + token.value
  {
  }

  /** The header the client builds is the one the server's gate reads: for a
      token without spaces, the gate's second field is the token itself. */
  lemma ClientHeaderMatchesGate(token: string)
    requires token != [] && ' ' !in token
    ensures Middleware.TokenField(AuthHeaders(Some(token)).value["Authorization"]) == Some(token)
  {
    Middleware.TokenFieldAfterScheme("Bearer", token, []);
    assert "Bearer" + " " + token + [] == "Bearer " + token;
  }

  /** A session holding a token the service issued sends a header the gate
      accepts, with the issuing user's claims, for the token's 24 hours. */
  lemma IssuedSessionPassesGate(s: State, signer: Signer, user: UsersModel.PublicUser, clock: nat, now: nat)
    requires SignerAxioms(signer)
    requires s.token == Some(AuthService.GenerateToken(signer, user, clock))
    requires now < clock + TokenLifetime
    ensures AuthHeaders(s.token).Success?
    ensures Middleware.Gate(Some(AuthHeaders(s.token).value["Authorization"]), signer, now) ==
      Middleware.Next(Decoded(Claims(user.id, user.username, user.email), clock, clock + TokenLifetime))
  {
    Middleware.GateAcceptsIssuedToken(signer, user, clock, now);
  }

  /** `authenticatedFetch` clears the session and sends the window home
      exactly when the session is not authenticated or the answer is 401 or
      403; otherwise it hands back the status and changes nothing. */
  lemma FetchEffect(s: State, extra: map<string, string>, status: nat)
    ensures var o := Fetch(s, extra, status);
      o.result.Failure? <==> !Authenticated(s) || status == 401 || status == 403
    ensures var o := Fetch(s, extra, status);
      o.result.Failure? ==> o.state == Cleared(s) && o.redirect == Some(Home) && !Authenticated(o.state)
    ensures var o := Fetch(s, extra, status);
      o.result.Success? ==> o.result.value == status && o.state == s && o.redirect == None
    ensures Fetch(s, extra, status).sent.None? <==> !Authenticated(s)
  {
  }

  /** The request carries the session's bearer token unless the caller's own
      headers name "Authorization", in which case the caller's value wins. */
  lemma FetchHeaders(s: State, extra: map<string, string>, status: nat)
    requires Authenticated(s)
    ensures var sent := Fetch(s, extra, status).sent;
      sent.Some? && "Authorization" in sent.value && "Content-Type" in sent.value
    ensures "Authorization" !in extra ==>
      Fetch(s, extra, status).sent.value["Authorization"] == "Bearer " + s.token.value
    ensures "Authorization" in extra ==>
      Fetch(s, extra, status).sent.value["Authorization"] == extra["Authorization"]
  {
  }

  /** `localStorage`, shared by every script of the page. */
  class LocalStorage {
    var items: map<string, string>

    constructor (items: map<string, string>)
      ensures this.items == items
    {
      this.items := items;
    }
  }

  /** `window.location`, reduced to its `href`. */
  class Window {
    var href: string

    constructor (href: string)
      ensures this.href == href
    {
      this.href := href;
    }
  }

  class SessionManager {
    var token: Option<string>
    var user: Option<ClientUser>
    const storage: LocalStorage
    const codec: Codec

    /** The manager's state as a value. */
    function Current(): State
      reads this, storage
    {
      State(token, user, storage.items)
    }

    /** The invariant: the fields are what the storage holds. The
        constructor establishes it and every method that changes the session
        keeps it. */
    ghost predicate Valid()
      reads this, storage
    {
      Mirrors(Current(), codec)
    }

    constructor (storage: LocalStorage, codec: Codec)
      modifies storage
      ensures this.storage == storage && this.codec == codec
      ensures Current() == Loaded(old(storage.items), codec)
      ensures Valid()
    {
      this.storage := storage;
      this.codec := codec;
      token := Lookup(storage.items, TokenKey);
      user := None;
      new;
      var u := ParseUser();
      user := u;
      LoadedMirrors(old(storage.items), codec);
    }

    /** `_parseUser()`. */
    method ParseUser() returns (u: Option<ClientUser>)
      modifies this, storage
      ensures (u, Current()) == ReadUser(old(Current()), codec)
      ensures old(token == Lookup(storage.items, TokenKey)) ==> Mirrors(Current().(user := u), codec)
    {
      var text := Lookup(storage.items, UserKey);
      if !Present(text) {
        return None;
      }
      match codec.parse(text.value)
      case Parsed(v) =>
        u := v;
      case SyntaxError =>
        ClearSession();
        u := None;
    }

    /** `isAuthenticated()`. */
    predicate IsAuthenticated()
      reads this, storage
      ensures Valid() ==> (IsAuthenticated() <==> Authenticated(Loaded(storage.items, codec)))
    {
      LoadedMirrors(storage.items, codec);
      Authenticated(Current())
    }

    /** `saveSession(token, user)`: on a missing field the error is returned
      and nothing changes. */
    method SaveSession(token: string, user: Option<ClientUser>) returns (r: Result<(), string>)
      requires CodecAxioms(codec)
      modifies this, storage
      ensures match Saved(old(Current()), token, user, codec)
        case Success(s) => r == Success(()) && Current() == s
        case Failure(e) => r == Failure(e) && Current() == old(Current())
      ensures r.Success? ==> Valid() && IsAuthenticated()
      ensures old(Valid()) ==> Valid()
    {
      if token == [] || user.None? || user.value.id == [] || user.value.username == [] {
        assert Saved(old(Current()), token, user, codec).Failure?;
        return Failure(FieldsRequired);
      }
      SavedEffect(Current(), token, user, codec);
      storage.items := storage.items[TokenKey := token];
      storage.items := storage.items[UserKey := codec.stringify(user.value)];
      this.token := Some(token);
      this.user := user;
      r := Success(());
    }

    /** `clearSession()`. */
    method ClearSession()
      modifies this, storage
      ensures Current() == Cleared(old(Current()))
      ensures Valid() && !IsAuthenticated()
    {
      storage.items := storage.items - {TokenKey};
      storage.items := storage.items - {UserKey};
      token := None;
      user := None;
      assert storage.items == Cleared(old(Current())).items;
      ClearedEffect(old(Current()), codec);
    }

    /** `getAuthHeaders()`. */
    function GetAuthHeaders(): (r: Result<map<string, string>, string>)
      reads this
      ensures r.Failure? <==> token.None? || token.value == []
      ensures r.Failure? ==> r.error == NoToken
      ensures r.Success? ==> r.value == map["Authorization" := "Bearer " + token.value, "Content-Type" := "application/json"]
    {
      AuthHeaders(token)
    }

    /** `authenticatedFetch(url, options)` with the network answering
      `status`; `extra` is `options.headers`. */
    method AuthenticatedFetch(window: Window, extra: map<string, string>, status: nat)
      returns (r: Result<nat, string>, sent: Option<map<string, string>>)
      modifies this, storage, window
      ensures var o := Fetch(old(Current()), extra, status);
        && r == o.result && sent == o.sent && Current() == o.state
        && window.href == (if o.redirect.Some? then o.redirect.value else old(window.href))
      ensures r.Failure? ==> Valid() && !IsAuthenticated()
      ensures old(Valid()) ==> Valid()
    {
      if !IsAuthenticated() {
        ClearSession();
        window.href := Home;
        return Failure(NotAuthenticated), None;
      }
      var headers := GetAuthHeaders();
      sent := Some(headers.value + extra);
      if status == 401 || status == 403 {
        ClearSession();
        window.href := Home;
        return Failure(SessionExpired), sent;
      }
      r := Success(status);
    }
  }

  /** `protectRoute(redirectTo)`: true when the session is authenticated;
      otherwise the window is sent to `redirectTo` and the answer is false. */
  method ProtectRoute(manager: SessionManager, window: Window, redirectTo: string) returns (ok: bool)
    modifies window
    ensures ok == manager.IsAuthenticated()
    ensures window.href == if ok then old(window.href) else redirectTo
  {
    if !manager.IsAuthenticated() {
      window.href := redirectTo;
      return false;
    }
    return true;
  }

  /** `protectRoute()` with its default argument: the window is sent to "/". */
  method ProtectRouteHome(manager: SessionManager, window: Window) returns (ok: bool)
    modifies window
    ensures ok == manager.IsAuthenticated()
    ensures window.href == if ok then old(window.href) else Home
  {
    ok := ProtectRoute(manager, window, Home);
  }
}
