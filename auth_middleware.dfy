/** The request guard of the API and the token it issues
    (server/src/middleware/auth.js). The signing library is a pair of
    function parameters: `encode` signs a payload, `decode` verifies a token
    and yields its payload or fails. */
module AuthMiddleware {
  import opened Relational
  import opened Text

  /** The token payload; the middleware hands it to the handlers as the
      requesting user. */
  datatype Claims = Claims(id: nat, email: string, role: string, iat: nat)

  /** The guard either answers the request itself or lets it through with
      the decoded claims. */
  datatype AuthOutcome = Rejected(status: nat, error: string) | Authenticated(user: Claims)

  const NoTokenProvided := "No token provided"
  const InvalidToken := "Invalid token"

  /** `header?.split(' ')[1]`, kept only when it is a non-empty string: the
      text between the first space and the next space (or the end). */
  function BearerToken(header: Option<string>): (r: Option<string>)
    ensures header.None? ==> r.None?
    ensures header.Some? && ' ' !in header.value ==> r.None?
    ensures header.Some? && ' ' in header.value ==>
              var h, i := header.value, IndexOf(header.value, ' ');
              (r.None? <==> i + 1 == |h| || h[i + 1] == ' ')
    ensures r.Some? ==>
              var h, i := header.value, IndexOf(header.value, ' ');
              r.value != [] && ' ' !in r.value && OccursAt(h, r.value, i + 1) &&
              (i + 1 + |r.value| == |h| || h[i + 1 + |r.value|] == ' ')
  {
    match header
    case None => None
    case Some(h) =>
      var fields := Split(h, ' ');
      if |fields| >= 2 && fields[1] != "" then
        SecondField(h);
        Some(fields[1])
      else if ' ' in h then
        SecondField(h);
        None
      else None
  }

  /** Where the second space-separated field of a header lies. */
  lemma SecondField(h: string)
    requires ' ' in h
    ensures var i, f := IndexOf(h, ' '), Split(h, ' ')[1];
      i + 1 + |f| <= |h| && h[i + 1..i + 1 + |f|] == f && ' ' !in f &&
      (i + 1 + |f| == |h| || h[i + 1 + |f|] == ' ')
  {
    var i := IndexOf(h, ' ');
    var s := h[i + 1..];
    assert Split(h, ' ') == [h[..i]] + Split(s, ' ');
    if ' ' in s {
      var j := IndexOf(s, ' ');
      assert Split(s, ' ')[0] == s[..j];
    } else {
      assert Split(s, ' ')[0] == s;
    }
  }

  /** A header made of a space-free scheme, one space and a non-empty
      space-free token yields that token. */
  lemma BearerTokenOf(scheme: string, token: string)
    requires ' ' !in scheme && ' ' !in token && token != []
    ensures BearerToken(Some(scheme + " " + token)) == Some(token)
  {
    SplitTwoFields(scheme, ' ', token);
    assert scheme + " " + token == scheme + [' '] + token;
  }

  /** The guard: no usable token is 401 "No token provided", a token the
      library rejects is 401 "Invalid token", otherwise the decoded claims
      become the requesting user. */
  function Authenticate(header: Option<string>, decode: string -> Option<Claims>): (r: AuthOutcome)
    ensures r.Rejected? ==> r.status == 401
    ensures BearerToken(header).None? ==> r == Rejected(401, NoTokenProvided)
    ensures r.Authenticated? <==> BearerToken(header).Some? && decode(BearerToken(header).value).Some?
    ensures r.Authenticated? ==> r.user == decode(BearerToken(header).value).value
    ensures r == Rejected(401, InvalidToken) <==>
              BearerToken(header).Some? && decode(BearerToken(header).value).None?
  {
    match BearerToken(header)
    case None => Rejected(401, NoTokenProvided)
    case Some(token) =>
      match decode(token)
      case None => Rejected(401, InvalidToken)
      case Some(claims) => Authenticated(claims)
  }

  /** A request without an Authorization header is turned away. */
  lemma MissingHeaderRejected(decode: string -> Option<Claims>)
    ensures Authenticate(None, decode) == Rejected(401, NoTokenProvided)
  {
  }

  /** "Bearer" alone and "Bearer" followed by two spaces have no token
      field, whatever follows. */
  lemma SchemeOnlyRejected(decode: string -> Option<Claims>, rest: string)
    ensures Authenticate(Some("Bearer"), decode) == Rejected(401, NoTokenProvided)
    ensures Authenticate(Some("Bearer  " + rest), decode) == Rejected(401, NoTokenProvided)
  {
    var h := "Bearer  " + rest;
    assert h[6] == ' ';
    assert ' ' !in h[..6];
    assert IndexOf(h, ' ') == 6;
    assert h[7] == ' ';
  }

  /** The payload generateToken signs: the user's id, email and role, and
      the issue time in whole seconds. */
  function TokenPayload(id: nat, email: string, role: string, nowMs: nat): (c: Claims)
    ensures c.id == id && c.email == email && c.role == role
    ensures c.iat * 1000 <= nowMs < c.iat * 1000 + 1000
  {
    Claims(id, email, role, nowMs / 1000)
  }

  /** generateToken: the library's signing function applied to the payload
      of id, email, role and the issue second, with no expiry or other
      claim. */
  function GenerateToken(id: nat, email: string, role: string, nowMs: nat, encode: Claims -> string): (token: string)
    ensures token == encode(Claims(id, email, role, nowMs / 1000))
  {
    encode(TokenPayload(id, email, role, nowMs))
  }

  /** The token depends on the clock only through the whole second: two
      tokens for the same user issued within one second are equal. */
  lemma SameSecondSameToken(id: nat, email: string, role: string, nowMs: nat, laterMs: nat, encode: Claims -> string)
    requires nowMs <= laterMs < (nowMs / 1000) * 1000 + 1000
    ensures GenerateToken(id, email, role, laterMs, encode) == GenerateToken(id, email, role, nowMs, encode)
  {
    var c, d := TokenPayload(id, email, role, nowMs), TokenPayload(id, email, role, laterMs);
    assert c.iat * 1000 <= laterMs;
    assert c == d;
  }

  /** A token issued by generateToken and sent back as "<scheme> <token>"
      lets the request through as the same user, provided the library
      verifies its own tokens and they contain no space (a JWT is
      base64url text joined by dots). */
  lemma IssuedTokenAuthenticates(id: nat, email: string, role: string, nowMs: nat,
                                 encode: Claims -> string, decode: string -> Option<Claims>, scheme: string)
    requires decode(GenerateToken(id, email, role, nowMs, encode)) == Some(TokenPayload(id, email, role, nowMs))
    requires ' ' !in GenerateToken(id, email, role, nowMs, encode) && GenerateToken(id, email, role, nowMs, encode) != []
    requires ' ' !in scheme
    ensures Authenticate(Some(scheme + " " + GenerateToken(id, email, role, nowMs, encode)), decode) ==
            Authenticated(Claims(id, email, role, nowMs / 1000))
  {
    BearerTokenOf(scheme, GenerateToken(id, email, role, nowMs, encode));
  }
}
