/** The sign-in and password-change handlers. The user repository is abstract: `lookup` stands for
    GetUserByUsername, `matches` for the bcrypt comparison, `hash` for bcrypt hashing (None when it
    fails), and the stored password hashes are a map from user id. */
module AuthHandler {
  import opened Wrappers
  import opened Text
  import opened Rfc3339
  import opened ServerResponse
  import opened Jwt

  /** models.User, as far as the handlers read it. */
  datatype User = User(id: int, name: string, email: string, passwordHash: string, role: string, createdAt: Time, updatedAt: Time)

  datatype SigninRequest = SigninRequest(username: string, password: string)

  /** Sign-in refused with a 400 reply, accepted with a 200 reply carrying the token and the user, or
      aborted by a panic while the token is made (no recovering middleware is installed, so the
      connection is dropped without a reply). */
  datatype SigninOutcome = SigninRefused(reply: Reply) | SignedIn(accessToken: Token, user: User) | SigninAborted

  const Required := "username and password are required"
  const BadCredentials := "invalid username or password"
  const NoAccess := "You don't have the access. Please contact to the system administrator"

  /** The token's subject: the user's e-mail address goes into the username claim. */
  function TokenSubject(user: User): (s: Subject)
    ensures s.id == user.id && s.username == user.email && s.role == user.role
  {
    Subject(user.id, user.name, user.email, user.role, user.createdAt, user.updatedAt)
  }

  /** The request names an Admin user, by its trimmed non-empty name, with its trimmed non-empty password. */
  predicate AdminCredentials(req: SigninRequest, lookup: string -> Option<User>, matches: (string, string) -> bool): (ok: bool)
    ensures ok ==> !AllSpace(req.username) && !AllSpace(req.password)
  {
    var username, password := TrimSpace(req.username), TrimSpace(req.password);
    && username != "" && password != ""
    && lookup(username).Some? && matches(password, lookup(username).value.passwordHash)
    && lookup(username).value.role == "Admin"
  }

  /** White space around either field never changes the decision: the request passes exactly when its
      trimmed form does. */
  lemma CredentialsIgnoreSurroundingSpace(req: SigninRequest, lookup: string -> Option<User>, matches: (string, string) -> bool)
    ensures AdminCredentials(req, lookup, matches)
        <==> AdminCredentials(SigninRequest(TrimSpace(req.username), TrimSpace(req.password)), lookup, matches)
  {
    TrimSpaceIdempotent(req.username);
    TrimSpaceIdempotent(req.password);
  }

  /** Signin: decode the body, trim both fields, require both, then look the user up, check the
      password and the Admin role, and issue a token. */
  function Signin(body: JsonBody<SigninRequest>, lookup: string -> Option<User>, matches: (string, string) -> bool, cfg: Config, now: real): (r: SigninOutcome)
    ensures r.SigninRefused? ==> r.reply.code == StatusBadRequest && IsError(r.reply)
    ensures r.SignedIn? ==> ReadJSON(body).Ok?
    ensures r.SignedIn? ==>
      var username, password := TrimSpace(ReadJSON(body).value.username), TrimSpace(ReadJSON(body).value.password);
      && username != "" && password != ""
      && lookup(username) == Some(r.user)
      && matches(password, r.user.passwordHash)
      && r.user.role == "Admin"
      && GenerateJWT(TokenSubject(r.user), cfg, now) == Signed(r.accessToken)
    ensures r.SigninAborted? ==> !Registered(cfg.algorithm)
    ensures r.SignedIn? <==>
      ReadJSON(body).Ok? && AdminCredentials(ReadJSON(body).value, lookup, matches)
      && GenerateJWT(TokenSubject(lookup(TrimSpace(ReadJSON(body).value.username)).value), cfg, now).Signed?
  {
    match ReadJSON(body)
    case Err(e) => SigninRefused(BadRequest("invalid request payload: " + e))
    case Ok(req) =>
      var username := TrimSpace(req.username);
      var password := TrimSpace(req.password);
      if username == "" || password == "" then SigninRefused(BadRequest(Required))
      else
        match lookup(username)
        case None => SigninRefused(BadRequest(BadCredentials))
        case Some(user) =>
          if !matches(password, user.passwordHash) then SigninRefused(BadRequest(BadCredentials))
          else if user.role != "Admin" then SigninRefused(BadRequest(NoAccess))
          else
            match GenerateJWT(TokenSubject(user), cfg, now)
            case SignFailed(e) => SigninRefused(BadRequest("failed to generate token: " + e))
            case SignPanicked => SigninAborted
            case Signed(token) => SignedIn(token, user)
  }

  /** An unknown user and a known user with the wrong password get the same reply, so the reply does
      not tell which user names exist. */
  lemma UnknownUserLooksLikeWrongPassword(req: SigninRequest, size: nat, end: nat, lookup: string -> Option<User>, matches: (string, string) -> bool, cfg: Config, now: real)
    requires end <= size <= MaxBodyBytes
    requires TrimSpace(req.username) != "" && TrimSpace(req.password) != ""
    requires lookup(TrimSpace(req.username)).None?
      || !matches(TrimSpace(req.password), lookup(TrimSpace(req.username)).value.passwordHash)
    ensures Signin(JsonBody(size, [req], false, end), lookup, matches, cfg, now) == SigninRefused(BadRequest(BadCredentials))
  {
  }

  /** A user with the right password but another role than exactly "Admin" is refused. */
  lemma NonAdminRefused(req: SigninRequest, size: nat, end: nat, user: User, lookup: string -> Option<User>, matches: (string, string) -> bool, cfg: Config, now: real)
    requires end <= size <= MaxBodyBytes
    requires TrimSpace(req.username) != "" && TrimSpace(req.password) != ""
    requires lookup(TrimSpace(req.username)) == Some(user) && matches(TrimSpace(req.password), user.passwordHash)
    requires user.role != "Admin"
    ensures Signin(JsonBody(size, [req], false, end), lookup, matches, cfg, now) == SigninRefused(BadRequest(NoAccess))
  {
  }

  /** The issued token names the user by e-mail address, not by the name typed at sign-in, and it passes
      the authentication middleware until it expires. */
  lemma SigninTokenIsUsable(body: JsonBody<SigninRequest>, lookup: string -> Option<User>, matches: (string, string) -> bool, cfg: Config, now: real, checkedAt: real)
    requires Signin(body, lookup, matches, cfg, now).SignedIn?
    requires checkedAt < UnixSeconds(now + cfg.expiryNanos as real / 1_000_000_000.0) as real
    ensures var r := Signin(body, lookup, matches, cfg, now);
      r.accessToken.claims["username"] == Str(r.user.email)
    ensures var r := Signin(body, lookup, matches, cfg, now);
      VerifyToken(r.accessToken, cfg, checkedAt).Accepted?
      && VerifyToken(r.accessToken, cfg, checkedAt).claims.username == r.user.email
      && VerifyToken(r.accessToken, cfg, checkedAt).claims.role == "Admin"
  {
    var r := Signin(body, lookup, matches, cfg, now);
    assert cfg.algorithm in HmacMethods;
    IssuedIdentityClaims(TokenSubject(r.user), cfg, now);
    IssuedTokenVerifies(TokenSubject(r.user), cfg, now, checkedAt);
  }

  // ----- Changing the password -----

  datatype PasswordRequest = PasswordRequest(newPassword: string)

  const TooShort := "new password must be at least 6 characters long"
  const NoContext := "authentication context missing. Please log in again."

  /** The guard chain of UpdatePassword: the user id and the hash to store, or the reply that ends the
      request. The length is counted in bytes of UTF-8, as Go's len does. */
  function PasswordChange(body: JsonBody<PasswordRequest>, context: Option<Claims>, hash: string -> Option<string>): (r: Result<(int, string), Reply>)
    ensures r.Ok? <==> (ReadJSON(body).Ok? && Utf8Len(TrimSpace(ReadJSON(body).value.newPassword)) >= 6
                         && context.Some? && hash(TrimSpace(ReadJSON(body).value.newPassword)).Some?)
    ensures r.Ok? ==> r.value.0 == context.value.id
    ensures r.Ok? ==> r.value.1 == hash(TrimSpace(ReadJSON(body).value.newPassword)).value
    ensures ReadJSON(body).Err? ==> r == Err(BadRequest("invalid request payload: " + ReadJSON(body).error))
    ensures ReadJSON(body).Ok? && Utf8Len(TrimSpace(ReadJSON(body).value.newPassword)) >= 6 && context.None? ==>
      r == Err(Unauthorized(NoContext))
  {
    match ReadJSON(body)
    case Err(e) => Err(BadRequest("invalid request payload: " + e))
    case Ok(req) =>
      var password := TrimSpace(req.newPassword);
      if Utf8Len(password) < 6 then Err(BadRequest(TooShort))
      else if context.None? then Err(Unauthorized(NoContext))
      else match hash(password)
        case None => Err(ServerError(Some("internal server error during password hashing")))
        case Some(h) => Ok((context.value.id, h))
  }

  /** A password shorter than six bytes once trimmed is refused before the caller's identity is looked
      at, whether or not the request carries claims. */
  lemma ShortPasswordRefusedFirst(req: PasswordRequest, size: nat, end: nat, context: Option<Claims>, hash: string -> Option<string>)
    requires end <= size <= MaxBodyBytes && Utf8Len(TrimSpace(req.newPassword)) < 6
    ensures PasswordChange(JsonBody(size, [req], false, end), context, hash) == Err(BadRequest(TooShort))
  {
  }

  /** A password of six characters or more is long enough, whatever characters it uses. */
  lemma SixCharactersSuffice(password: string)
    requires |password| >= 6
    ensures Utf8Len(password) >= 6
  {
  }

  class PasswordStore {
    /** The password hash stored for each user id. */
    var hashes: map<int, string>

    constructor (initial: map<int, string>)
      ensures hashes == initial
    {
      hashes := initial;
    }

    /** UpdatePassword: `context` holds the claims the middleware put in the request context, if any;
        `dbFails` stands for an error from the repository's update. */
    method UpdatePassword(body: JsonBody<PasswordRequest>, context: Option<Claims>, hash: string -> Option<string>, dbFails: bool)
      returns (reply: Reply)
      modifies this
      ensures PasswordChange(body, context, hash).Err? ==>
        reply == PasswordChange(body, context, hash).error && hashes == old(hashes)
      ensures PasswordChange(body, context, hash).Ok? && dbFails ==>
        reply == ServerError(Some("failed to update password in database")) && hashes == old(hashes)
      ensures PasswordChange(body, context, hash).Ok? && !dbFails ==>
        var (id, h) := PasswordChange(body, context, hash).value;
        reply == Reply(StatusOK, MessageBody("Password updated successfully."))
        && hashes == if id in old(hashes) then old(hashes)[id := h] else old(hashes)
    {
      ghost var spec := PasswordChange(body, context, hash);
      var decoded := ReadJSON(body);
      if decoded.Err? {
        assert spec == Err(BadRequest("invalid request payload: " + decoded.error));
        return BadRequest("invalid request payload: " + decoded.error);
      }
      var req := decoded.value;
      req := req.(newPassword := TrimSpace(req.newPassword));
      if Utf8Len(req.newPassword) < 6 {
        assert spec == Err(BadRequest(TooShort));
        return BadRequest(TooShort);
      }
      if context.None? {
        assert spec == Err(Unauthorized(NoContext));
        return Unauthorized(NoContext);
      }
      var userId := context.value.id;
      var hashed := hash(req.newPassword);
      if hashed.None? {
        assert spec == Err(ServerError(Some("internal server error during password hashing")));
        return ServerError(Some("internal server error during password hashing"));
      }
      assert spec == Ok((userId, hashed.value));
      if dbFails {
        return ServerError(Some("failed to update password in database"));
      }
      if userId in hashes {
        hashes := hashes[userId := hashed.value];
      }
      reply := Reply(StatusOK, MessageBody("Password updated successfully."));
    }
  }
}
