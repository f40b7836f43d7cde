/** The authentication gate (src/middlewares/auth.middleware.js): take the
    second space-separated field of the `Authorization` header, verify it as
    a JSON Web Token, and either attach the decoded claims to the request and
    pass it on, or answer 401, 403 or 500.

    The scheme word in front of the token is never looked at, so the gate is
    looser than section 2.1 of RFC 6750: any header whose second field is
    non-empty goes to verification. */
module Middleware {
  import opened Wrappers
  import opened Text
  import opened Crypto
  import opened UsersModel
  import opened Http
  import AuthService

  const MissingToken := "Token de autenticación requerido"
  const MalformedToken := "Formato de token inválido. Use: Bearer <token>"
  const InvalidToken := "Token inválido"
  const ExpiredToken := "Token expirado"
  const VerificationFailed := "Error al verificar autenticación"

  /** `authHeader.split(" ")[1]`: `None` when the header has no space; the
      field itself never holds a space. */
  function TokenField(header: string): (r: Option<string>)
    ensures r.Some? <==> ' ' in header
    ensures r.Some? ==> ' ' !in r.value
  {
    SecondFieldPresent(header);
    var fields := Split(header, ' ');
    if |fields| > 1 then Some(fields[1]) else None
  }

  /** `split(" ")` gives a second field exactly when the header contains a space. */
  lemma SecondFieldPresent(header: string)
    ensures |Split(header, ' ')| > 1 <==> ' ' in header
  {
    if ' ' !in header {
      SplitNoSeparator(header, ' ');
    } else {
      var i :| 0 <= i < |header| && header[i] == ' ';
      var j := AuthService.IndexOf(header, ' ');
      assert header == header[..j] + [' '] + header[j + 1..];
      SplitAtFirst(header[..j], ' ', header[j + 1..]);
    }
  }

  /** Whatever word precedes the first space, the field is the text after it
      up to the next space or the end. */
  lemma {:induction false} TokenFieldAfterScheme(scheme: string, token: string, rest: string)
    requires ' ' !in scheme && ' ' !in token
    requires rest == [] || rest[0] == ' '
    ensures TokenField(scheme + " " + token + rest) == Some(token)
  {
    assert scheme + " " + token + rest == scheme + [' '] + (token + rest);
    SplitAtFirst(scheme, ' ', token + rest);
    if rest == [] {
      assert token + rest == token;
      SplitNoSeparator(token, ' ');
    } else {
      assert token + rest == token + [' '] + rest[1..];
      SplitAtFirst(token, ' ', rest[1..]);
    }
  }

  /** What the gate decides: pass the request on with the decoded claims, or
      answer with a status and message. */
  datatype Decision = Next(user: Decoded) | Reject(status: nat, message: string)

  /** The `catch` block: the error's `name` picks the answer. */
  function Classify(v: Verification): (d: Decision)
    ensures d.Next? <==> v.Verified?
    ensures v.Verified? ==> d.user == v.decoded
    ensures d == Reject(403, InvalidToken) <==> v == Threw(JsonWebTokenError)
    ensures d == Reject(403, ExpiredToken) <==> v == Threw(TokenExpiredError)
    ensures d.Reject? ==> d.status == 403 || d == Reject(500, VerificationFailed)
  {
    match v
    case Verified(decoded) => Next(decoded)
    case Threw(name) =>
      if name == JsonWebTokenError then Reject(403, InvalidToken)
      else if name == TokenExpiredError then Reject(403, ExpiredToken)
      else Reject(500, VerificationFailed)
  }

  /** `authMiddleware`'s decision for a header (`None`: no `Authorization`
      header) with the signer's `verify` at clock `now`. */
  function Gate(header: Option<string>, signer: Signer, now: nat): (d: Decision)
    ensures d == Reject(401, MissingToken) <==> header.None? || header.value == []
    ensures d == Reject(401, MalformedToken) <==>
      header.Some? && header.value != [] && (TokenField(header.value).None? || TokenField(header.value).value == [])
    ensures d.Reject? && d.status != 401 ==> d.status == 403 || d.status == 500
    ensures d.Next? ==> exists t :: TokenField(header.value) == Some(t) && signer.verify(t, now) == Verified(d.user)
    ensures header.Some? && TokenField(header.value).Some? && TokenField(header.value).value != [] ==>
      d == Classify(signer.verify(TokenField(header.value).value, now))
  {
    if header.None? || header.value == [] then Reject(401, MissingToken)
    else match TokenField(header.value)
      case None => Reject(401, MalformedToken)
      case Some(token) =>
        if token == [] then Reject(401, MalformedToken)
        else Classify(signer.verify(token, now))
  }

  /** The scheme word is not checked: a header `<word> <token>` with a
      non-empty token is decided by verifying that token, whatever the word. */
  lemma GateIgnoresScheme(scheme: string, token: string, signer: Signer, now: nat)
    requires ' ' !in scheme && ' ' !in token && token != []
    ensures Gate(Some(scheme + " " + token), signer, now) == Classify(signer.verify(token, now))
  {
    TokenFieldAfterScheme(scheme, token, []);
    assert scheme + " " + token + [] == scheme + " " + token;
  }

  /** Two headers that differ only in the scheme word are decided alike. */
  lemma GateSchemeIrrelevant(scheme1: string, scheme2: string, token: string, signer: Signer, now: nat)
    requires ' ' !in scheme1 && ' ' !in scheme2 && ' ' !in token
    ensures Gate(Some(scheme1 + " " + token), signer, now) == Gate(Some(scheme2 + " " + token), signer, now)
  {
    TokenFieldAfterScheme(scheme1, token, []);
    TokenFieldAfterScheme(scheme2, token, []);
    assert scheme1 + " " + token + [] == scheme1 + " " + token;
    assert scheme2 + " " + token + [] == scheme2 + " " + token;
  }

  /** `"Token xyz"` is verified exactly like `"Bearer xyz"`. */
  lemma GateAcceptsAnyScheme(signer: Signer, now: nat)
    ensures Gate(Some("Token xyz"), signer, now) == Gate(Some("Bearer xyz"), signer, now)
  {
    assert "Token" + " " + "xyz" == "Token xyz";
    assert "Bearer" + " " + "xyz" == "Bearer xyz";
    GateSchemeIrrelevant("Token", "Bearer", "xyz", signer, now);
  }

  /** A forged or tampered token, one `sign` never produced, is answered 403
      "Token inválido" at any time. */
  lemma GateRejectsForgedToken(signer: Signer, t: string, now: nat)
    requires SignerAxioms(signer)
    requires t != [] && ' ' !in t
    requires forall d :: signer.sign(d) != t
    ensures Gate(Some("Bearer " + t), signer, now) == Reject(403, InvalidToken)
  {
    GateIgnoresScheme("Bearer", t, signer, now);
    assert "Bearer" + " " + t == "Bearer " + t;
  }

  /** `"Bearer"` has no second field. */
  lemma GateSchemeOnlyMalformed(signer: Signer, now: nat)
    ensures Gate(Some("Bearer"), signer, now) == Reject(401, MalformedToken)
  {
    assert ' ' !in "Bearer";
  }

  /** `"Bearer "` and `"Bearer  xyz"` have an empty second field. */
  lemma GateEmptyFieldMalformed(signer: Signer, now: nat)
    ensures Gate(Some("Bearer "), signer, now) == Reject(401, MalformedToken)
    ensures Gate(Some("Bearer  xyz"), signer, now) == Reject(401, MalformedToken)
  {
    TokenFieldAfterScheme("Bearer", "", []);
    assert "Bearer" + " " + "" + [] == "Bearer ";
    TokenFieldAfterScheme("Bearer", "", " xyz");
    assert "Bearer" + " " + "" + " xyz" == "Bearer  xyz";
  }

  /** Under the signer's assumptions the gate lets a request through only
      with a genuine, unexpired token, and the claims it attaches are the
      ones that were signed. */
  lemma GateAcceptsOnlySigned(header: Option<string>, signer: Signer, now: nat)
    requires SignerAxioms(signer)
    requires Gate(header, signer, now).Next?
    ensures var d := Gate(header, signer, now).user;
      TokenField(header.value) == Some(signer.sign(d)) && now < d.exp
  {
    var d := Gate(header, signer, now).user;
    var t :| TokenField(header.value) == Some(t) && signer.verify(t, now) == Verified(d);
    assert signer.sign(d) == t;
    assert signer.verify(signer.sign(d), now) == Verified(d);
  }

  /** A token issued by the service, sent as `Bearer <token>`, passes the gate
      with the user's id, username and email for 24 hours, and is answered
      403 "Token expirado" from then on. */
  lemma GateAcceptsIssuedToken(signer: Signer, user: PublicUser, clock: nat, now: nat)
    requires SignerAxioms(signer)
    ensures var token := AuthService.GenerateToken(signer, user, clock);
      Gate(Some("Bearer " + token), signer, now) ==
        if now < clock + TokenLifetime
        then Next(Decoded(Claims(user.id, user.username, user.email), clock, clock + TokenLifetime))
        else Reject(403, ExpiredToken)
  {
    var token := AuthService.GenerateToken(signer, user, clock);
    AuthService.GeneratedTokenVerifies(signer, user, clock, now);
    GateIgnoresScheme("Bearer", token, signer, now);
    assert "Bearer" + " " + token == "Bearer " + token;
  }

  /** The request as the gate sees it. */
  class Request {
    const authorization: Option<string>
    var user: Option<Decoded>

    constructor (authorization: Option<string>)
      ensures this.authorization == authorization && user == None
    {
      this.authorization := authorization;
      user := None;
    }
  }

  /** `authMiddleware(req, res, next)`: on every path exactly one of `next()`
      (counted in `nextCalls`) or a reply happens; only on the `next()` path
      is `req.user` set, to the decoded claims. */
  method AuthMiddleware(req: Request, res: ServerResponse, signer: Signer, now: nat) returns (nextCalls: nat)
    modifies req`user, res
    ensures match Gate(req.authorization, signer, now)
      case Next(user) => nextCalls == 1 && req.user == Some(user) && res.reply == old(res.reply)
      case Reject(status, message) => nextCalls == 0 && req.user == old(req.user) && res.reply == Some(Fail(status, message))
  {
    nextCalls := 0;
    var header := req.authorization;
    if header.None? || header.value == [] {
      res.Send(Fail(401, MissingToken));
      return;
    }
    var token := TokenField(header.value);
    if token.None? || token.value == [] {
      res.Send(Fail(401, MalformedToken));
      return;
    }
    var verification := signer.verify(token.value, now);
    match verification
    case Verified(decoded) =>
      req.user := Some(decoded);
      nextCalls := nextCalls + 1;
    case Threw(name) =>
      if name == JsonWebTokenError {
        res.Send(Fail(403, InvalidToken));
      } else if name == TokenExpiredError {
        res.Send(Fail(403, ExpiredToken));
      } else {
        res.Send(Fail(500, VerificationFailed));
      }
  }
}
