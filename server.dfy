/**
 * The HTTP server's request gate (`authenticateToken`) and the check on a
 * registration body. Token verification is a library call and comes in
 * as a parameter: it yields the token's claims, or nothing for a token
 * that is malformed, forged or signed with another secret.
 */
module Server {
  import opened Wrappers
  import opened Text
  import opened Journal

  /** The payload a token carries, as signed at login. */
  datatype Claims = Claims(username: string)

  /** The JSON error body `{ success: false, error }`. */
  datatype ErrorBody = ErrorBody(success: bool, error: string)

  /** What the gate does with a request: pass it on (with `req.user` set or not), or answer it. */
  datatype GateResult =
    | Next(user: Option<Claims>)
    | Respond(status: int, body: ErrorBody)

  /** The paths anyone may call. */
  predicate PublicPath(path: string) {
    path == "/api/login" || path == "/api/register" || path == "/api/health"
  }

  /**
   * `authHeader && authHeader.split(' ')[1]`: no token without a header or
   * without a space in it; the second space-separated part otherwise. An
   * empty header is falsy and is itself the result, the empty string,
   * which is not `null`.
   */
  function Token(header: Option<string>): (token: Option<string>)
    ensures header.None? ==> token.None?
    ensures header == Some("") ==> token == Some("")
    ensures header.Some? && header.value != "" ==> (token.Some? <==> ' ' in header.value)
    ensures token.Some? ==> ' ' !in token.value
  {
    match header
    case None => None
    case Some(h) =>
      if h == "" then Some("")
      else
        var parts := Split(h, ' ');
        if |parts| > 1 then Some(parts[1]) else None
  }

  /** The token is the part after the first space, up to the next one. */
  lemma TokenIsSecondPart(scheme: string, rest: string)
    requires ' ' !in scheme
    ensures Token(Some(scheme + " " + rest)) == Some(Split(rest, ' ')[0])
  {
    SplitAfterPiece(scheme, rest, ' ');
    assert scheme + " " + rest == scheme + [' '] + rest;
  }

  /** A `Bearer` header hands over exactly the token after the scheme. */
  lemma BearerToken(token: string)
    requires ' ' !in token
    ensures Token(Some("Bearer " + token)) == Some(token)
  {
    TokenIsSecondPart("Bearer", token);
    SplitWhole(token, ' ');
    assert "Bearer " + token == "Bearer" + " " + token;
  }

  /** `authenticateToken`. */
  function AuthenticateToken(path: string, header: Option<string>, verify: string -> Option<Claims>): (r: GateResult)
    ensures PublicPath(path) ==> r == Next(None)
    ensures !PublicPath(path) && Token(header).None? ==> r == Respond(401, ErrorBody(false, "Unauthorized"))
    ensures !PublicPath(path) && Token(header).Some? && verify(Token(header).value).None? ==>
              r == Respond(403, ErrorBody(false, "Forbidden"))
    ensures r.Next? && !PublicPath(path) ==>
              Token(header).Some? && r.user.Some? && verify(Token(header).value) == r.user
  {
    if PublicPath(path) then Next(None)
    else
      var token := Token(header);
      if token.None? then Respond(401, ErrorBody(false, "Unauthorized"))
      else match verify(token.value)
        case None => Respond(403, ErrorBody(false, "Forbidden"))
        case Some(user) => Next(Some(user))
  }

  /** A valid bearer token on a protected path passes with its claims. */
  lemma ValidBearerPasses(path: string, token: string, verify: string -> Option<Claims>, claims: Claims)
    requires !PublicPath(path) && ' ' !in token && verify(token) == Some(claims)
    ensures AuthenticateToken(path, Some("Bearer " + token), verify) == Next(Some(claims))
  {
    BearerToken(token);
  }

  /** A request passes a protected path only with claims the verifier issued for some token. */
  lemma PassingNeedsVerifiedToken(path: string, header: Option<string>, verify: string -> Option<Claims>)
    requires !PublicPath(path) && AuthenticateToken(path, header, verify).Next?
    ensures exists token :: verify(token) == AuthenticateToken(path, header, verify).user && verify(token).Some?
  {
    var token := Token(header).value;
    assert verify(token) == AuthenticateToken(path, header, verify).user;
  }

  /** Without a header, or with a header that has no space, no verifier decides: the answer is 401. */
  lemma MissingTokenUnauthorized(path: string, header: Option<string>, verify: string -> Option<Claims>)
    requires !PublicPath(path)
    requires header.None? || (header.value != "" && ' ' !in header.value)
    ensures AuthenticateToken(path, header, verify).Respond?
    ensures AuthenticateToken(path, header, verify).status == 401
  {
  }

  /**
   * An empty header is not treated as missing: its empty token goes to
   * the verifier, so a verifier that rejects it yields 403, not 401.
   */
  lemma EmptyHeaderForbidden(path: string, verify: string -> Option<Claims>)
    requires !PublicPath(path) && verify("").None?
    ensures AuthenticateToken(path, Some(""), verify) == Respond(403, ErrorBody(false, "Forbidden"))
  {
  }

  /** The registration body check: both fields must be present and non-empty. */
  function ValidateRegister(username: Option<string>, password: Option<string>): (r: Option<GateResult>)
    ensures r.None? <==> !Blank(username) && !Blank(password)
    ensures r.Some? ==> r.value == Respond(400, ErrorBody(false, "Username and password required"))
  {
    if Blank(username) || Blank(password) then Some(Respond(400, ErrorBody(false, "Username and password required")))
    else None
  }
}
