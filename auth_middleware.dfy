/** AuthJWT: the middleware in front of every admin route. It reads the Authorization header, verifies
    the bearer token and lets only the Admin role through. */
module AuthMiddleware {
  import opened Wrappers
  import opened Text
  import opened ServerResponse
  import opened Jwt

  /** How a request leaves the middleware: refused with a 401 reply, passed to the next handler with the
      verified claims in its context, or aborted by a panic inside the token check (no recovering
      middleware is installed, so the connection is dropped without a reply). */
  datatype Gate = Refused(reply: Reply) | Passed(claims: Claims) | Aborted

  const MissingToken := "authorization token required"
  const BadFormat := "invalid authorization header format. Expected 'Bearer <token>'"
  const BadToken := "invalid or expired token"
  const NotAdmin := "access denied. Insufficient privileges"

  /** The middleware for one request carrying `header` as its Authorization value. */
  function AuthJWT(header: string, decode: string -> Option<Token>, cfg: Config, now: real): (g: Gate)
    ensures g.Refused? ==> g.reply.code == StatusUnauthorized && IsError(g.reply)
    ensures g.Passed? ==> g.claims.role == "Admin"
    ensures header == "" ==> g == Refused(Unauthorized(MissingToken))
  {
    if header == "" then Refused(Unauthorized(MissingToken))
    else
      var parts := Split(header, ' ');
      if |parts| != 2 || ToLowerAscii(parts[0]) != "bearer" then Refused(Unauthorized(BadFormat))
      else
        match VerifyJWT(parts[1], decode, cfg, now)
        case Panicked => Aborted
        case Rejected(_) => Refused(Unauthorized(BadToken))
        case Accepted(claims) =>
          if claims.role != "Admin" then Refused(Unauthorized(NotAdmin)) else Passed(claims)
  }

  /** A header that does not hold exactly one space (two tokens, a double space, no space) is refused
      for its format, whatever the token. */
  lemma SpacesOtherThanOneRefused(header: string, decode: string -> Option<Token>, cfg: Config, now: real)
    requires header != "" && Count(header, ' ') != 1
    ensures AuthJWT(header, decode, cfg, now) == Refused(Unauthorized(BadFormat))
  {
    SplitCount(header, ' ');
  }

  /** For a header "<scheme> <token>" with one space: the scheme is compared case-insensitively with
      "bearer", the token handed to VerifyJWT is exactly the text after the space, and the request is
      passed on iff that token verifies with the Admin role, carrying the verified claims. */
  lemma BearerHeader(scheme: string, token: string, decode: string -> Option<Token>, cfg: Config, now: real)
    requires ' ' !in scheme && ' ' !in token
    ensures var g := AuthJWT(scheme + " " + token, decode, cfg, now);
      var v := VerifyJWT(token, decode, cfg, now);
      && (ToLowerAscii(scheme) != "bearer" ==> g == Refused(Unauthorized(BadFormat)))
      && (g.Passed? <==> ToLowerAscii(scheme) == "bearer" && v.Accepted? && v.claims.role == "Admin")
      && (g.Passed? ==> g.claims == v.claims)
      && (ToLowerAscii(scheme) == "bearer" && v.Rejected? ==> g == Refused(Unauthorized(BadToken)))
      && (ToLowerAscii(scheme) == "bearer" && v.Panicked? ==> g == Aborted)
  {
    assert scheme + " " + token == Join([scheme, token], ' ');
    SplitJoin([scheme, token], ' ');
  }

  /** A request passes only with a header of the form "<scheme> <token>" whose scheme lower-cases to
      "bearer" and whose token verifies with the Admin role. */
  lemma PassedHeaderShape(header: string, decode: string -> Option<Token>, cfg: Config, now: real)
    requires AuthJWT(header, decode, cfg, now).Passed?
    ensures Count(header, ' ') == 1
    ensures var parts := Split(header, ' ');
      && header == parts[0] + " " + parts[1]
      && ToLowerAscii(parts[0]) == "bearer"
      && VerifyJWT(parts[1], decode, cfg, now) == Accepted(AuthJWT(header, decode, cfg, now).claims)
  {
    SplitCount(header, ' ');
    JoinSplit(header, ' ');
    var parts := Split(header, ' ');
    assert Join(parts, ' ') == parts[0] + [' '] + Join(parts[1..], ' ');
  }

  // Sequence-algebra step, stated apart so that the proofs that use it stay small for the solver.
  lemma BearerLowers()
    ensures ToLowerAscii("Bearer") == "bearer"
  {
    assert ToLowerAscii("Bearer") == [LowerAscii('B')] + ToLowerAscii("earer");
  }

  /** A token issued to an Admin with an HMAC method, presented as "Bearer <token>" before it expires,
      passes the middleware with the Admin's data in the context. */
  lemma IssuedAdminTokenPasses(user: Subject, cfg: Config, issuedAt: real, checkedAt: real, tokenString: string, decode: string -> Option<Token>)
    requires user.role == "Admin" && cfg.algorithm in HmacMethods
    requires Rfc3339.Representable(user.createdAt) && Rfc3339.Representable(user.updatedAt)
    requires checkedAt < UnixSeconds(issuedAt + cfg.expiryNanos as real / 1_000_000_000.0) as real
    requires ' ' !in tokenString && decode(tokenString) == Some(GenerateJWT(user, cfg, issuedAt).token)
    ensures var g := AuthJWT("Bearer " + tokenString, decode, cfg, checkedAt);
      g.Passed? && g.claims.id == user.id && g.claims.username == user.username && g.claims.role == "Admin"
  {
    BearerSplits(tokenString);
    BearerLowers();
    IssuedTokenVerifies(user, cfg, issuedAt, checkedAt);
    AdminTokenPasses("Bearer", tokenString, decode, cfg, checkedAt);
  }

  // Used by IssuedAdminTokenPasses: "Bearer <token>" is the scheme, one space and the token. Stated
  // apart so that the proofs that use it stay small for the solver.
  lemma BearerSplits(token: string)
    ensures "Bearer " + token == "Bearer" + " " + token && ' ' !in "Bearer"
  {
  }

  /** A header "<scheme> <token>" with a bearer scheme passes exactly with the verified Admin claims. */
  lemma AdminTokenPasses(scheme: string, token: string, decode: string -> Option<Token>, cfg: Config, now: real)
    requires ' ' !in scheme && ' ' !in token && ToLowerAscii(scheme) == "bearer"
    requires VerifyJWT(token, decode, cfg, now).Accepted? && VerifyJWT(token, decode, cfg, now).claims.role == "Admin"
    ensures AuthJWT(scheme + " " + token, decode, cfg, now) == Passed(VerifyJWT(token, decode, cfg, now).claims)
  {
    BearerHeader(scheme, token, decode, cfg, now);
  }
}
