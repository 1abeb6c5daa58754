/**
 * The authentication guard in front of the protected routes: it takes the
 * bearer token of the `Authorization` header (section 2.1 of RFC 6750),
 * has it verified, and records the user it names on the request.
 *
 * Token verification (signature and expiry) is an input: the map from the
 * tokens that verify to their payloads.
 */
module AuthMiddleware {
  import opened Wrappers
  import opened Strings

  /** The user a verified token names. */
  datatype AuthUser = AuthUser(userId: string, email: string)

  /** The payload of a verified token: the user plus the issue and expiry times. */
  datatype TokenPayload = TokenPayload(userId: string, email: string, issuedAt: int, expiresAt: int)

  /** What the quota guard attaches to the request. */
  datatype AiUsage = AiUsage(used: int, remaining: int)

  /** A JSON error response: its status, its `error` text and an optional `message`. */
  datatype Response = Response(status: nat, error: string, message: Option<string>)

  /** A middleware either answers the request or passes it on by calling `next` once. */
  datatype Outcome = Responded(response: Response) | Next

  /** The request as the middlewares see and change it. */
  class AuthRequest {
    var user: Option<AuthUser>
    var aiUsage: Option<AiUsage>

    constructor()
      ensures user.None? && aiUsage.None?
    {
      user := None;
      aiUsage := None;
    }
  }

  const BearerPrefix: string := "Bearer "
  const TokenMissing: string := "Authorization token missing."
  const TokenInvalid: string := "Invalid or expired token."

  /**
   * The token of an `Authorization` header: nothing without the header or
   * without the exact prefix `Bearer `; otherwise the second space-separated
   * piece, that is the text after the prefix up to the next space.
   */
  function BearerToken(header: Option<string>): (r: Option<string>)
    ensures r.Some? <==> header.Some? && StartsWith(header.value, BearerPrefix)
    ensures r.Some? ==> var rest := header.value[|BearerPrefix|..];
      && ' ' !in r.value && StartsWith(rest, r.value)
      && (r.value == rest || rest[|r.value|] == ' ')
  {
    if header.None? || !StartsWith(header.value, BearerPrefix) then None
    else
      var h := header.value;
      var rest := h[|BearerPrefix|..];
      assert h == "Bearer" + [' '] + rest;
      SplitCons("Bearer", rest, ' ');
      SplitFirst(rest, ' ');
      Some(Split(h, ' ')[1])
  }

  /** After the prefix, the token is the first space-separated piece. */
  lemma TokenAfterPrefix(rest: string)
    ensures BearerToken(Some(BearerPrefix + rest)) == Some(Split(rest, ' ')[0])
  {
    var h := BearerPrefix + rest;
    assert h[..|BearerPrefix|] == BearerPrefix;
    assert h[|BearerPrefix|..] == rest;
    assert h == "Bearer" + [' '] + rest;
    SplitCons("Bearer", rest, ' ');
  }

  /** `Bearer TOKEN` and `Bearer TOKEN more…` both yield `TOKEN`. */
  lemma TokenIsSecondWord(token: string, more: Option<string>)
    requires ' ' !in token
    ensures var header := BearerPrefix + token + (if more.Some? then " " + more.value else "");
      BearerToken(Some(header)) == Some(token)
  {
    var rest := token + (if more.Some? then " " + more.value else "");
    assert BearerPrefix + token + (if more.Some? then " " + more.value else "") == BearerPrefix + rest;
    TokenAfterPrefix(rest);
    if more.Some? {
      assert rest == token + [' '] + more.value;
      SplitCons(token, more.value, ' ');
    } else {
      assert rest == token;
    }
  }

  /** A second space after the prefix leaves an empty token. */
  lemma ExtraSpaceGivesEmptyToken(token: string)
    ensures BearerToken(Some(BearerPrefix + " " + token)) == Some("")
  {
    var h := BearerPrefix + " " + token;
    assert h[..|BearerPrefix|] == BearerPrefix;
    assert h[|BearerPrefix|..][0] == ' ';
  }

  /**
   * The decision of `authenticateUser`: the user of the verified token, or
   * the 401 error to answer with.
   */
  function Authenticate(header: Option<string>, verified: map<string, TokenPayload>): (r: Result<AuthUser>)
    ensures r.Ok? <==> BearerToken(header).Some? && BearerToken(header).value in verified
    ensures r.Ok? ==> var p := verified[BearerToken(header).value]; r.value == AuthUser(p.userId, p.email)
    ensures r.Err? ==> r.error == (if BearerToken(header).None? then TokenMissing else TokenInvalid)
  {
    var token := BearerToken(header);
    if token.None? then Err(TokenMissing)
    else if token.value !in verified then Err(TokenInvalid)
    else
      var p := verified[token.value];
      Ok(AuthUser(p.userId, p.email))
  }

  /**
   * `authenticateUser`: on a verified token the request carries exactly the
   * token's user and id and is passed on; otherwise it is answered with 401
   * and left as it was.
   */
  method AuthenticateUser(req: AuthRequest, header: Option<string>, verified: map<string, TokenPayload>)
    returns (outcome: Outcome)
    modifies req
    ensures var d := Authenticate(header, verified);
      && (d.Ok? ==> outcome == Next && req.user == Some(d.value))
      && (d.Err? ==> outcome == Responded(Response(401, d.error, None)) && req.user == old(req.user))
    ensures req.aiUsage == old(req.aiUsage)
  {
    var d := Authenticate(header, verified);
    if d.Err? {
      return Responded(Response(401, d.error, None));
    }
    req.user := Some(d.value);
    return Next;
  }
}
