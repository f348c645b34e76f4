/**
 * middleware/auth.go: the two gates in front of the protected routes.
 * `AuthRequired` reads the `Authorization` header, insists on the exact form
 * `Bearer <token>` (a strict reading of the bearer scheme of section 2.1 of
 * RFC 6750), hands the token to the token validator and, on success, records
 * the claims as request locals before the next handler runs. `AdminOnly`
 * lets only the admin role through.
 *
 * The token validator (`helper.ValidateToken`, JWT verification) is not part
 * of this model: it is a parameter, a function from the token text to the
 * claims it carries, `None` when the token is invalid or expired.
 */
module AuthMiddleware {
  import opened Common
  import Text

  const TokenRequired := "Token akses diperlukan"
  const BadFormat := "Format token tidak valid"
  const BadToken := "Token tidak valid atau expired"
  const AdminRequired := "Akses ditolak. Hanya admin yang diizinkan"

  /** What a valid token says about its holder. The user id is the text of an ObjectID. */
  datatype Claims = Claims(userId: string, username: string, role: string)

  /**
   * `strings.Split(authHeader, " ")` followed by its check: the token of a
   * header made of exactly two space-separated pieces, the first `Bearer`.
   */
  function BearerToken(header: string): (r: Option<string>)
    ensures r.Some? ==> header == "Bearer " + r.value && ' ' !in r.value
  {
    var parts := Text.Split(header, ' ');
    if |parts| == 2 && parts[0] == "Bearer" then
      Text.JoinSplit(header, ' ');
      assert parts[1..] == [parts[1]];
      assert Text.Join(parts, [' ']) == parts[0] + [' '] + Text.Join(parts[1..], [' ']);
      Some(parts[1])
    else None
  }

  /**
   * The header check accepts exactly `"Bearer "` followed by a token with no
   * space in it, and yields that token.
   */
  lemma BearerTokenExact(header: string, token: string)
    ensures BearerToken(header) == Some(token) <==> header == "Bearer " + token && ' ' !in token
  {
    if header == "Bearer " + token && ' ' !in token {
      assert header == "Bearer" + [' '] + token;
      Text.SplitPair("Bearer", token, ' ');
    }
  }

  /** The scheme name is case-sensitive, and a doubled space leaves three pieces. */
  lemma StrictBearerForm(token: string)
    ensures BearerToken("bearer " + token) == None
    ensures BearerToken("Bearer  " + token) == None
  {
    assert ("bearer " + token)[0] == 'b';
    var h := "Bearer  " + token;
    forall t | ' ' !in t
      ensures h != "Bearer " + t
    {
      assert h[7] == ' ';
    }
  }

  /** The gate's verdict: run the next handler with these claims, or answer now. */
  datatype Decision = Proceed(claims: Claims) | Reject(resp: Response)

  /** The decision chain of `AuthRequired`: missing header, malformed header, bad token, in that order. */
  function Authenticate(header: string, validate: string -> Option<Claims>): (d: Decision)
    ensures d.Reject? ==> d.resp.status == 401
    ensures header == "" ==> d == Reject(Response(401, TokenRequired))
  {
    if header == "" then Reject(Response(401, TokenRequired))
    else
      match BearerToken(header)
      case None => Reject(Response(401, BadFormat))
      case Some(token) =>
        match validate(token)
        case None => Reject(Response(401, BadToken))
        case Some(c) => Proceed(c)
  }

  /**
   * A request gets through only with a `Bearer <token>` header whose token
   * the validator accepts, and it carries exactly that token's claims.
   */
  lemma AuthenticateProceeds(header: string, validate: string -> Option<Claims>)
    ensures Authenticate(header, validate).Proceed? ==>
      |header| >= 7 && header[..7] == "Bearer " && ' ' !in header[7..]
      && validate(header[7..]) == Some(Authenticate(header, validate).claims)
  {
    var t := BearerToken(header);
    if header != "" && t.Some? {
      BearerTokenExact(header, t.value);
      assert header[7..] == t.value;
    }
  }

  /** Conversely, every well-formed header with an accepted token gets through with its claims. */
  lemma AuthenticateAccepts(token: string, validate: string -> Option<Claims>, claims: Claims)
    requires ' ' !in token && validate(token) == Some(claims)
    ensures Authenticate("Bearer " + token, validate) == Proceed(claims)
  {
    BearerTokenExact("Bearer " + token, token);
  }

  /** A well-formed header whose token the validator refuses is "invalid or expired", not "bad format". */
  lemma RejectedTokenMessage(token: string, validate: string -> Option<Claims>)
    requires ' ' !in token && validate(token).None?
    ensures Authenticate("Bearer " + token, validate) == Reject(Response(401, BadToken))
  {
    BearerTokenExact("Bearer " + token, token);
  }

  /** The request context: the locals a handler reads with `c.Locals`. */
  class Ctx {
    var locals: map<string, string>

    constructor ()
      ensures locals == map[]
    {
      locals := map[];
    }
  }

  /**
   * `AuthRequired`: `None` when the next handler runs, after the three
   * locals have been set from the claims; otherwise the 401 answer, with the
   * locals untouched.
   */
  method AuthRequired(c: Ctx, header: string, validate: string -> Option<Claims>) returns (resp: Option<Response>)
    modifies c
    ensures resp.None? <==> Authenticate(header, validate).Proceed?
    ensures resp.Some? ==> resp.value == Authenticate(header, validate).resp && c.locals == old(c.locals)
    ensures resp.None? ==>
      var claims := Authenticate(header, validate).claims;
      c.locals == old(c.locals)["user_id" := claims.userId]["username" := claims.username]["role" := claims.role]
  {
    if header == "" {
      return Some(Response(401, TokenRequired));
    }
    var token := BearerToken(header);
    if token.None? {
      return Some(Response(401, BadFormat));
    }
    var claims := validate(token.value);
    if claims.None? {
      return Some(Response(401, BadToken));
    }
    c.locals := c.locals["user_id" := claims.value.userId];
    c.locals := c.locals["username" := claims.value.username];
    c.locals := c.locals["role" := claims.value.role];
    resp := None;
  }

  /**
   * `AdminOnly`: lets the request through exactly when the role local is
   * the admin role, and answers 403 otherwise. The source's type assertion
   * needs the role local to be set, which `AuthRequired` does before it.
   */
  method AdminOnly(c: Ctx) returns (resp: Option<Response>)
    requires "role" in c.locals
    ensures resp.None? <==> c.locals["role"] == AdminRole
    ensures resp.Some? ==> resp.value == Response(403, AdminRequired)
  {
    if c.locals["role"] != AdminRole {
      return Some(Response(403, AdminRequired));
    }
    resp := None;
  }

  /**
   * Behind both gates, a request reaches the handler exactly when its
   * header is well formed and its token's claims carry the admin role.
   */
  method AdminRoute(c: Ctx, header: string, validate: string -> Option<Claims>) returns (resp: Option<Response>)
    modifies c
    ensures resp.None? <==>
      (Authenticate(header, validate).Proceed? && Authenticate(header, validate).claims.role == AdminRole)
    ensures Authenticate(header, validate).Reject? ==> resp == Some(Authenticate(header, validate).resp)
  {
    resp := AuthRequired(c, header, validate);
    if resp.None? {
      resp := AdminOnly(c);
    }
  }
}
