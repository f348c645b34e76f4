/**
 * app/service/auth_service.go: logging in. `Login` looks the user up by
 * username or email, checks the password, and issues a token; `HandleLogin`
 * checks the body and turns every login failure into 401.
 *
 * The `users` table is a sequence of rows, and the lookup takes the first
 * row whose username or email equals the identifier. A failure of the query
 * itself is a parameter (`failure`, the driver's error text). Password
 * checking (`helper.CheckPassword`) and token signing
 * (`helper.GenerateToken`) are not part of this model: they are parameters
 * too, the signer giving `None` when it fails.
 */
module AuthService {
  import opened Common

  const BadCredentials := "username atau password salah"
  const DatabasePrefix := "error database: "
  const TokenFailed := "gagal generate token"
  const InvalidBody := "Request body tidak valid"
  const MissingFields := "Username dan password harus diisi"
  const LoggedIn := "Login berhasil"

  /** A user as returned to clients; the password hash is never part of it. */
  datatype User = User(id: string, username: string, email: string, role: string)

  /** A row of `users`: the user and the password hash stored beside it. */
  datatype UserRow = UserRow(user: User, passwordHash: string)

  datatype LoginRequest = LoginRequest(username: string, password: string)
  datatype LoginResponse = LoginResponse(user: User, token: string)

  /** The row `identifier` names, by username or by email. */
  predicate Names(row: UserRow, identifier: string)
  {
    row.user.username == identifier || row.user.email == identifier
  }

  /** The first row the identifier names, if any. */
  function FindUser(users: seq<UserRow>, identifier: string): (r: Option<UserRow>)
    ensures r.None? <==> forall i :: 0 <= i < |users| ==> !Names(users[i], identifier)
    ensures r.Some? ==> r.value in users && Names(r.value, identifier)
  {
    if users == [] then None
    else if Names(users[0], identifier) then Some(users[0])
    else FindUser(users[1..], identifier)
  }

  /** `GetUserByUsernameOrEmail`: the row, `sql.ErrNoRows`, or the driver's error. */
  function GetUserByUsernameOrEmail(users: seq<UserRow>, identifier: string, failure: Option<string>): (r: Result<UserRow>)
    ensures failure.Some? ==> r == Err(Message(failure.value))
    ensures failure.None? ==> (r.Err? <==> FindUser(users, identifier).None?)
    ensures r.Err? && failure.None? ==> r.error == NoRows
  {
    if failure.Some? then Err(Message(failure.value))
    else match FindUser(users, identifier)
      case None => Err(NoRows)
      case Some(row) => Ok(row)
  }

  /** `Login`. */
  function Login(
    req: LoginRequest, users: seq<UserRow>, failure: Option<string>,
    checkPassword: (string, string) -> bool, generateToken: User -> Option<string>): (r: Result<LoginResponse>)
    ensures r.Err? ==> r.error.Message?
    ensures r.Ok? ==>
      failure.None? && FindUser(users, req.username).Some?
      && var row := FindUser(users, req.username).value;
      checkPassword(req.password, row.passwordHash)
      && generateToken(row.user) == Some(r.value.token) && r.value.user == row.user
  {
    match GetUserByUsernameOrEmail(users, req.username, failure)
    case Err(e) =>
      if e == NoRows then Err(Message(BadCredentials))
      else Err(Message(DatabasePrefix + ErrorText(e)))
    case Ok(row) =>
      if !checkPassword(req.password, row.passwordHash) then Err(Message(BadCredentials))
      else
        match generateToken(row.user)
        case None => Err(Message(TokenFailed))
        case Some(token) => Ok(LoginResponse(row.user, token))
  }

  /**
   * An unknown identifier and a wrong password cannot be told apart: both
   * give the same error, whatever the tables hold.
   */
  lemma UnknownUserLooksLikeWrongPassword(
    req: LoginRequest, unknown: seq<UserRow>, known: seq<UserRow>,
    checkPassword: (string, string) -> bool, generateToken: User -> Option<string>)
    requires forall i :: 0 <= i < |unknown| ==> !Names(unknown[i], req.username)
    requires FindUser(known, req.username).Some?
    requires !checkPassword(req.password, FindUser(known, req.username).value.passwordHash)
    ensures Login(req, unknown, None, checkPassword, generateToken)
         == Login(req, known, None, checkPassword, generateToken)
         == Err(Message(BadCredentials))
  {
  }

  /** A failing query is reported as a database error, never as bad credentials or a token failure. */
  lemma DatabaseErrorIsDistinct(
    req: LoginRequest, users: seq<UserRow>, failure: string,
    checkPassword: (string, string) -> bool, generateToken: User -> Option<string>)
    ensures var r := Login(req, users, Some(failure), checkPassword, generateToken);
      r == Err(Message(DatabasePrefix + failure))
      && ErrorText(r.error) != BadCredentials && ErrorText(r.error) != TokenFailed
  {
    var text := DatabasePrefix + failure;
    assert text[0] == 'e';
  }

  /** With the right password, a failed signing is "gagal generate token", and a successful one logs in. */
  lemma TokenOutcome(
    req: LoginRequest, users: seq<UserRow>,
    checkPassword: (string, string) -> bool, generateToken: User -> Option<string>)
    requires FindUser(users, req.username).Some?
    requires checkPassword(req.password, FindUser(users, req.username).value.passwordHash)
    ensures var user := FindUser(users, req.username).value.user;
      Login(req, users, None, checkPassword, generateToken)
        == if generateToken(user).None? then Err(Message(TokenFailed))
           else Ok(LoginResponse(user, generateToken(user).value))
  {
  }

  /** `HandleLogin`: 400 for an unparsable body or a missing field, 401 for any login failure, 200 otherwise. */
  function HandleLogin(
    body: Option<LoginRequest>, users: seq<UserRow>, failure: Option<string>,
    checkPassword: (string, string) -> bool, generateToken: User -> Option<string>): (r: (Response, Option<LoginResponse>))
    ensures body.None? ==> r.0 == Response(400, InvalidBody)
    ensures r.0.status == 401 <==>
      body.Some? && body.value.username != "" && body.value.password != ""
      && Login(body.value, users, failure, checkPassword, generateToken).Err?
    ensures r.0.status == 401 ==>
      body.Some? && r.0.message == ErrorText(Login(body.value, users, failure, checkPassword, generateToken).error)
    ensures r.0.status == 200 <==> r.1.Some?
    ensures r.1.Some? ==> body.Some? && Login(body.value, users, failure, checkPassword, generateToken) == Ok(r.1.value)
  {
    if body.None? then (Response(400, InvalidBody), None)
    else if body.value.username == "" || body.value.password == "" then (Response(400, MissingFields), None)
    else
      match Login(body.value, users, failure, checkPassword, generateToken)
      case Err(e) => (Response(401, ErrorText(e)), None)
      case Ok(resp) => (Response(200, LoggedIn), Some(resp))
  }

  /** A missing username or password is refused before the lookup: the answer does not depend on the table. */
  lemma MissingFieldsBeforeLookup(
    req: LoginRequest, users: seq<UserRow>, failure: Option<string>, others: seq<UserRow>,
    checkPassword: (string, string) -> bool, generateToken: User -> Option<string>)
    requires req.username == "" || req.password == ""
    ensures HandleLogin(Some(req), users, failure, checkPassword, generateToken)
         == HandleLogin(Some(req), others, None, checkPassword, generateToken)
         == (Response(400, MissingFields), None)
  {
  }
}
