/** Issuing and checking the access tokens: GenerateJWT, ParseJWT and VerifyJWT. The JWT library's
    decoding, signing and signature check are abstract: a token is modelled as what the library decodes
    (its algorithm, the key its signature was made with, and its claims after a JSON round trip), and
    a signature is valid exactly when it was made with the configured secret. */
module Jwt {
  import opened Wrappers
  import opened Rfc3339

  /** models.JWTConfig; the expiry is a Go duration, in nanoseconds. */
  datatype Config = Config(secretKey: string, algorithm: string, issuer: string, audience: string, expiryNanos: int)

  /** A claim value after JSON decoding: a string, a number (a float64, taken exactly here), or any
      other JSON value. */
  datatype ClaimValue = Str(s: string) | Num(x: real) | Other

  type ClaimSet = map<string, ClaimValue>

  datatype Token = Token(alg: string, signingKey: string, claims: ClaimSet)

  /** models.JWT: what a token says about the signed-in user. */
  datatype Claims = Claims(
    id: int, name: string, username: string, role: string,
    issuer: string, audience: string, expiresAt: int, issuedAt: int,
    createdAt: Time, updatedAt: Time)

  /** The user a token is issued for: the fields of models.JWT GenerateJWT reads. */
  datatype Subject = Subject(id: int, name: string, username: string, role: string, createdAt: Time, updatedAt: Time)

  /** How a check ends: with the claims, with an error, or with a Go panic from a failed type assertion. */
  datatype Outcome = Accepted(claims: Claims) | Rejected(message: string) | Panicked

  /** int64(x) for a float64 `x`: the fraction is dropped, rounding toward zero. */
  function Truncate(x: real): (n: int)
    ensures x >= 0.0 ==> n as real <= x < n as real + 1.0
    ensures x < 0.0 ==> n as real - 1.0 < x <= n as real
  {
    if x >= 0.0 then x.Floor else -((-x).Floor)
  }

  /** time.Time.Unix(): whole seconds, rounding down. */
  function UnixSeconds(t: real): (n: int)
    ensures n as real <= t < n as real + 1.0
  {
    t.Floor
  }

  /** The time value Go gives a field that was never set: January 1, year 1, 00:00:00 UTC. */
  const ZeroTime: Time := Timestamp(1, 1, 1, 0, 0, 0, 0, 0)

  // ----- Issuing -----

  /** The signing methods the JWT library registers under their names: HMAC methods sign with a byte
      key, the others need a key pair, and "none" needs a special marker as its key. */
  const HmacMethods: set<string> := {"HS256", "HS384", "HS512"}
  const KeyPairMethods: set<string> := {"RS256", "RS384", "RS512", "PS256", "PS384", "PS512", "ES256", "ES384", "ES512", "EdDSA"}
  const NoneMethod := "none"

  predicate Registered(alg: string) {
    alg in HmacMethods || alg in KeyPairMethods || alg == NoneMethod
  }

  /** How GenerateJWT ends: a signed token, an error, or a Go panic. */
  datatype Signing = Signed(token: Token) | SignFailed(error: string) | SignPanicked

  const MarshalPrefix := "json: error calling MarshalJSON for type time.Time: Time.MarshalJSON: "
  const YearRange := "year outside of range [0,9999]"
  const ZoneHourRange := "timezone hour outside of range [0,23]"

  /** Why the JSON encoder refuses a time: the year is checked before the offset. */
  function MarshalError(t: Time): (m: string)
    requires !Representable(t)
    ensures m == MarshalPrefix + YearRange <==> !(0 <= t.year <= 9999)
    ensures m == MarshalPrefix + ZoneHourRange <==> 0 <= t.year <= 9999 && !(-MaxWrittenOffset <= t.offsetMinutes <= MaxWrittenOffset)
  {
    if !(0 <= t.year <= 9999) then MarshalPrefix + YearRange else MarshalPrefix + ZoneHourRange
  }

  /** The error categories of SignedString for a registered method other than HMAC, given the secret
      as bytes. */
  const KeyTypeError := "key is of invalid type"
  const NoneDisallowed := "token is unverifiable"

  /** The claims GenerateJWT writes at time `now` (Unix seconds): id, name, username, role, iss, aud,
      exp (now plus the configured expiry, in whole seconds), iat (now, in whole seconds), and
      created_at and updated_at as the JSON encoder writes time values. */
  function IssuedClaims(user: Subject, cfg: Config, now: real): (c: ClaimSet)
    requires Representable(user.createdAt) && Representable(user.updatedAt)
    ensures "nbf" !in c
  {
    var exp := UnixSeconds(now + cfg.expiryNanos as real / 1_000_000_000.0);
    map[
      "id" := Num(user.id as real),
      "name" := Str(user.name),
      "username" := Str(user.username),
      "role" := Str(user.role),
      "iss" := Str(cfg.issuer),
      "aud" := Str(cfg.audience),
      "exp" := Num(exp as real),
      "iat" := Num(UnixSeconds(now) as real),
      "created_at" := Str(Format(user.createdAt)),
      "updated_at" := Str(Format(user.updatedAt))]
  }

  /** GenerateJWT at time `now`: the claims above, signed with the configured method. An algorithm name the library does not know
      gives a nil signing method, which panics; the claims are encoded next, created_at before
      updated_at; only the HMAC methods can then sign with the secret. */
  function GenerateJWT(user: Subject, cfg: Config, now: real): (r: Signing)
    ensures r.SignPanicked? <==> !Registered(cfg.algorithm)
    ensures r.Signed? <==> cfg.algorithm in HmacMethods && Representable(user.createdAt) && Representable(user.updatedAt)
    ensures r.SignFailed? && !Representable(user.createdAt) ==> r.error == MarshalError(user.createdAt)
    ensures r.SignFailed? && Representable(user.createdAt) && !Representable(user.updatedAt) ==>
      r.error == MarshalError(user.updatedAt)
    ensures r.SignFailed? && Representable(user.createdAt) && Representable(user.updatedAt) ==>
      r.error == if cfg.algorithm == NoneMethod then NoneDisallowed else KeyTypeError
    ensures r.Signed? ==> r.token == Token(cfg.algorithm, cfg.secretKey, IssuedClaims(user, cfg, now))
  {
    if !Registered(cfg.algorithm) then SignPanicked
    else if !Representable(user.createdAt) then SignFailed(MarshalError(user.createdAt))
    else if !Representable(user.updatedAt) then SignFailed(MarshalError(user.updatedAt))
    else if cfg.algorithm == NoneMethod then SignFailed(NoneDisallowed)
    else if cfg.algorithm !in HmacMethods then SignFailed(KeyTypeError)
    else Signed(Token(cfg.algorithm, cfg.secretKey, IssuedClaims(user, cfg, now)))
  }

  // ----- Checking -----

  predicate HasStr(c: ClaimSet, k: string) {
    k in c && c[k].Str?
  }

  predicate HasNum(c: ClaimSet, k: string) {
    k in c && c[k].Num?
  }

  /** The library reads a numeric date claim as whole seconds, rounding down; 0 means the claim is
      absent. */
  predicate DateSet(c: ClaimSet, k: string) {
    HasNum(c, k) && c[k].x != 0.0
  }

  /** The library's tests of exp and nbf: when present they are numbers, a set exp is after now and a
      set nbf is not, both in whole seconds. */
  predicate DatesValid(c: ClaimSet, now: real) {
    && ("exp" !in c || c["exp"].Num?) && (!DateSet(c, "exp") || now < c["exp"].x.Floor as real)
    && ("nbf" !in c || c["nbf"].Num?) && (!DateSet(c, "nbf") || c["nbf"].x.Floor as real <= now)
  }

  /** What jwt.Parse with the handlers' key function decides before the handler's own checks. A token
      whose algorithm the library does not register, or that differs from the configured one, is
      unverifiable. The key function always hands over the secret as bytes, which only the HMAC methods
      accept: under any other method the signature is invalid, as it is when it was made with another
      key. Then exp and nbf, when present, must be numbers, a set exp must be after now and a set nbf
      not after it. None means the library accepts the token. Each error is the library's category,
      without the detail it joins to it; an expired token is reported as expired even when nbf is
      wrong too. */
  function LibraryCheck(t: Token, cfg: Config, now: real): (r: Option<string>)
    ensures r.None? <==>
      t.alg == cfg.algorithm && cfg.algorithm in HmacMethods && t.signingKey == cfg.secretKey
      && DatesValid(t.claims, now)
    ensures r == Some("token is expired") <==>
      t.alg == cfg.algorithm && cfg.algorithm in HmacMethods && t.signingKey == cfg.secretKey
      && DateSet(t.claims, "exp") && t.claims["exp"].x.Floor as real <= now
    ensures t.alg != cfg.algorithm || !Registered(t.alg) ==> r == Some("invalid token: token is unverifiable")
    ensures t.alg == cfg.algorithm && Registered(t.alg) && (t.alg !in HmacMethods || t.signingKey != cfg.secretKey) ==>
      r == Some("invalid token: token signature is invalid")
  {
    var c := t.claims;
    if !Registered(t.alg) then Some("invalid token: token is unverifiable")
    else if t.alg != cfg.algorithm then Some("invalid token: token is unverifiable")
    else if t.alg !in HmacMethods then Some("invalid token: token signature is invalid")
    else if t.signingKey != cfg.secretKey then Some("invalid token: token signature is invalid")
    else if "exp" in c && !c["exp"].Num? then Some("invalid token: token has invalid claims")
    else if DateSet(c, "exp") && c["exp"].x.Floor as real <= now then Some("token is expired")
    else if "nbf" in c && !c["nbf"].Num? then Some("invalid token: token has invalid claims")
    else if DateSet(c, "nbf") && now < c["nbf"].x.Floor as real then Some("invalid token: token has invalid claims")
    else None
  }

  /** The claims both ParseJWT and VerifyJWT copy without checking their values. */
  predicate Typed(c: ClaimSet) {
    HasNum(c, "id") && HasStr(c, "name") && HasStr(c, "username") && HasStr(c, "role")
    && HasStr(c, "iss") && HasStr(c, "aud") && HasNum(c, "exp") && HasNum(c, "iat")
  }

  /** models.JWT as both functions fill it: numbers truncated to integers, strings as they are. */
  function Copied(c: ClaimSet, createdAt: Time, updatedAt: Time): (j: Claims)
    requires Typed(c)
    ensures j.id as real == c["id"].x || (c["id"].x < 0.0 <==> c["id"].x < j.id as real)
    ensures j.createdAt == createdAt && j.updatedAt == updatedAt
  {
    Claims(
      Truncate(c["id"].x), c["name"].s, c["username"].s, c["role"].s,
      c["iss"].s, c["aud"].s, Truncate(c["exp"].x), Truncate(c["iat"].x),
      createdAt, updatedAt)
  }

  /** A token VerifyJWT accepts: the library accepts it, every claim has its type, the issuer and
      audience are the configured ones, exp is not before now once truncated, and both times parse. */
  predicate WellFormed(t: Token, cfg: Config, now: real): (ok: bool)
    ensures ok ==> t.alg == cfg.algorithm && cfg.algorithm in HmacMethods && t.signingKey == cfg.secretKey
    ensures ok ==> DatesValid(t.claims, now) && HasNum(t.claims, "exp")
    ensures ok ==> now < t.claims["exp"].x.Floor as real || (t.claims["exp"].x == 0.0 && now <= 0.0)
  {
    var c := t.claims;
    && LibraryCheck(t, cfg, now).None? && Typed(c)
    && c["iss"].s == cfg.issuer && c["aud"].s == cfg.audience
    && now <= Truncate(c["exp"].x) as real
    && HasStr(c, "created_at") && Parse(c["created_at"].s).Some?
    && HasStr(c, "updated_at") && Parse(c["updated_at"].s).Some?
  }

  /** VerifyJWT on a decoded token: the library's checks, then issuer, audience, expiry, id, created_at
      and updated_at in that order; iss and aud are asserted to be strings and name, username, role and
      iat to be present with their types, which panics otherwise. */
  function VerifyToken(t: Token, cfg: Config, now: real): (r: Outcome)
    ensures r.Accepted? <==> WellFormed(t, cfg, now)
    ensures WellFormed(t, cfg, now) ==>
      r == Accepted(Copied(t.claims, Parse(t.claims["created_at"].s).value, Parse(t.claims["updated_at"].s).value))
    ensures r.Accepted? ==> r.claims.issuer == cfg.issuer && r.claims.audience == cfg.audience
    ensures r.Accepted? ==> now <= r.claims.expiresAt as real
    ensures r.Accepted? ==> 0 <= r.claims.createdAt.year <= 9999 && 0 <= r.claims.updatedAt.year <= 9999
  {
    match LibraryCheck(t, cfg, now)
    case Some(message) => Rejected(message)
    case None =>
      var c := t.claims;
      if !HasStr(c, "iss") then Panicked
      else if c["iss"].s != cfg.issuer then Rejected("token issuer mismatch")
      else if !HasStr(c, "aud") then Panicked
      else if c["aud"].s != cfg.audience then Rejected("token audience mismatch")
      else if !HasNum(c, "exp") then Rejected("token expiry claim missing or invalid")
      else if (Truncate(c["exp"].x) as real) < now then Rejected("token has expired")
      else if !HasNum(c, "id") then Rejected("token 'id' claim missing or invalid")
      else if !HasStr(c, "created_at") then Rejected("token 'created_at' claim missing or invalid format")
      else if Parse(c["created_at"].s).None? then Rejected("failed to parse created_at time")
      else if !HasStr(c, "updated_at") then Rejected("token 'updated_at' claim missing or invalid format")
      else if Parse(c["updated_at"].s).None? then Rejected("failed to parse updated_at time")
      else if !Typed(c) then Panicked
      else Accepted(Copied(c, Parse(c["created_at"].s).value, Parse(c["updated_at"].s).value))
  }

  /** VerifyJWT(tokenString, cfg): `decode` stands for the library's decoding of the compact form. */
  function VerifyJWT(tokenString: string, decode: string -> Option<Token>, cfg: Config, now: real): (r: Outcome)
    ensures decode(tokenString).None? ==> r == Rejected("invalid token: token is malformed")
    ensures decode(tokenString).Some? ==> r == VerifyToken(decode(tokenString).value, cfg, now)
  {
    match decode(tokenString)
    case None => Rejected("invalid token: token is malformed")
    case Some(t) => VerifyToken(t, cfg, now)
  }

  /** ParseJWT on a decoded token: any library error is "invalid token", then every claim but the two
      times is asserted to be present with its type, which panics otherwise; the times stay unset. */
  function ParseToken(t: Token, cfg: Config, now: real): (r: Outcome)
    ensures r.Accepted? <==> LibraryCheck(t, cfg, now).None? && Typed(t.claims)
    ensures r.Panicked? <==> LibraryCheck(t, cfg, now).None? && !Typed(t.claims)
    ensures r.Accepted? ==> r.claims.createdAt == ZeroTime && r.claims.updatedAt == ZeroTime
  {
    if LibraryCheck(t, cfg, now).Some? then Rejected("invalid token")
    else if !Typed(t.claims) then Panicked
    else Accepted(Copied(t.claims, ZeroTime, ZeroTime))
  }

  // ----- Properties -----

  /** Both checks refuse a token signed with another algorithm than the configured one. */
  lemma WrongAlgorithmRefused(t: Token, cfg: Config, now: real)
    requires t.alg != cfg.algorithm
    ensures VerifyToken(t, cfg, now) == Rejected("invalid token: token is unverifiable")
    ensures ParseToken(t, cfg, now) == Rejected("invalid token")
  {
  }

  /** Under a configured method other than HMAC, with its secret handed over as bytes, both checks
      refuse every token. */
  lemma OnlyHmacConfigAccepts(t: Token, cfg: Config, now: real)
    requires cfg.algorithm !in HmacMethods
    ensures VerifyToken(t, cfg, now).Rejected? && ParseToken(t, cfg, now) == Rejected("invalid token")
  {
  }

  /** The handler's checks run in a fixed order: a wrong issuer is reported whatever the audience and
      times say, a wrong audience whatever the times say, and a missing or late expiry before anything
      about the id or the timestamps. */
  lemma ChecksInOrder(t: Token, cfg: Config, now: real)
    requires LibraryCheck(t, cfg, now).None?
    ensures HasStr(t.claims, "iss") && t.claims["iss"].s != cfg.issuer ==>
      VerifyToken(t, cfg, now) == Rejected("token issuer mismatch")
    ensures HasStr(t.claims, "iss") && t.claims["iss"].s == cfg.issuer && HasStr(t.claims, "aud") && t.claims["aud"].s != cfg.audience ==>
      VerifyToken(t, cfg, now) == Rejected("token audience mismatch")
    ensures HasStr(t.claims, "iss") && t.claims["iss"].s == cfg.issuer && HasStr(t.claims, "aud") && t.claims["aud"].s == cfg.audience ==>
      (!HasNum(t.claims, "exp") <==> VerifyToken(t, cfg, now) == Rejected("token expiry claim missing or invalid"))
  {
  }

  /** The checks after the expiry, in order, each with its own message: the id, then created_at's type
      and text. */
  lemma CreatedAtChecksInOrder(t: Token, cfg: Config, now: real)
    requires LibraryCheck(t, cfg, now).None?
    requires HasStr(t.claims, "iss") && t.claims["iss"].s == cfg.issuer
    requires HasStr(t.claims, "aud") && t.claims["aud"].s == cfg.audience
    requires HasNum(t.claims, "exp") && now <= Truncate(t.claims["exp"].x) as real
    ensures var r, c := VerifyToken(t, cfg, now), t.claims;
      && (!HasNum(c, "id") <==> r == Rejected("token 'id' claim missing or invalid"))
      && (HasNum(c, "id") ==>
           (!HasStr(c, "created_at") <==> r == Rejected("token 'created_at' claim missing or invalid format")))
      && (HasNum(c, "id") && HasStr(c, "created_at") ==>
           (Parse(c["created_at"].s).None? <==> r == Rejected("failed to parse created_at time")))
  {
  }

  /** Then updated_at's type and text; the remaining claims' types are only asserted, and a wrong one
      panics. */
  lemma UpdatedAtChecksInOrder(t: Token, cfg: Config, now: real)
    requires LibraryCheck(t, cfg, now).None?
    requires HasStr(t.claims, "iss") && t.claims["iss"].s == cfg.issuer
    requires HasStr(t.claims, "aud") && t.claims["aud"].s == cfg.audience
    requires HasNum(t.claims, "exp") && now <= Truncate(t.claims["exp"].x) as real
    requires HasNum(t.claims, "id") && HasStr(t.claims, "created_at") && Parse(t.claims["created_at"].s).Some?
    ensures var r, c := VerifyToken(t, cfg, now), t.claims;
      && (!HasStr(c, "updated_at") <==> r == Rejected("token 'updated_at' claim missing or invalid format"))
      && (HasStr(c, "updated_at") ==>
           (Parse(c["updated_at"].s).None? <==> r == Rejected("failed to parse updated_at time")))
      && (HasStr(c, "updated_at") && Parse(c["updated_at"].s).Some? ==> (r == Panicked <==> !Typed(c)))
  {
  }

  /** The handler's own "token has expired" check fires only for an exp of exactly 0, which the library
      takes for an absent claim: a set exp that passed the library is after now, and so is its
      truncation. */
  lemma OwnExpiryCheckOnlyForZero(t: Token, cfg: Config, now: real)
    requires LibraryCheck(t, cfg, now).None?
    requires HasStr(t.claims, "iss") && t.claims["iss"].s == cfg.issuer
    requires HasStr(t.claims, "aud") && t.claims["aud"].s == cfg.audience
    requires HasNum(t.claims, "exp")
    ensures VerifyToken(t, cfg, now) == Rejected("token has expired") <==> t.claims["exp"].x == 0.0 && 0.0 < now
  {
    var x := t.claims["exp"].x;
    if x != 0.0 {
      assert now < x.Floor as real;
      assert x.Floor <= Truncate(x);
    }
  }

  /** A token whose set exp is, in whole seconds, at or before now is refused as expired, whatever else
      it holds, provided it is signed with the configured HMAC method and secret. */
  lemma LateTokenRefused(t: Token, cfg: Config, now: real)
    requires t.alg == cfg.algorithm && cfg.algorithm in HmacMethods && t.signingKey == cfg.secretKey
    requires DateSet(t.claims, "exp") && t.claims["exp"].x.Floor as real <= now
    ensures VerifyToken(t, cfg, now) == Rejected("token is expired")
  {
  }

  /** A token whose set nbf is, in whole seconds, after now is refused, provided it is signed with the
      configured HMAC method and secret and its expiry is right. */
  lemma EarlyTokenRefused(t: Token, cfg: Config, now: real)
    requires t.alg == cfg.algorithm && cfg.algorithm in HmacMethods && t.signingKey == cfg.secretKey
    requires "exp" !in t.claims || (t.claims["exp"].Num? && (t.claims["exp"].x == 0.0 || now < t.claims["exp"].x.Floor as real))
    requires DateSet(t.claims, "nbf") && now < t.claims["nbf"].x.Floor as real
    ensures VerifyToken(t, cfg, now) == Rejected("invalid token: token has invalid claims")
  {
  }

  /** The library reads an exp or nbf of 0 as an absent claim. */
  lemma ZeroDateIsAbsent(t: Token, cfg: Config, now: real, k: string)
    requires k == "exp" || k == "nbf"
    ensures LibraryCheck(Token(t.alg, t.signingKey, t.claims[k := Num(0.0)]), cfg, now)
         == LibraryCheck(Token(t.alg, t.signingKey, t.claims - {k}), cfg, now)
  {
    var a, b := t.claims[k := Num(0.0)], t.claims - {k};
    var o := if k == "exp" then "nbf" else "exp";
    assert o in a <==> o in b;
    assert o in a ==> a[o] == b[o];
  }

  lemma TruncateWhole(n: int)
    ensures Truncate(n as real) == n
  {
  }

  /** The identity claims GenerateJWT writes: the user's id, name, username and role, and the
      configured issuer and audience. */
  lemma IssuedIdentityClaims(user: Subject, cfg: Config, now: real)
    requires Representable(user.createdAt) && Representable(user.updatedAt)
    ensures var c := IssuedClaims(user, cfg, now);
      && c["id"] == Num(user.id as real) && c["name"] == Str(user.name)
      && c["username"] == Str(user.username) && c["role"] == Str(user.role)
      && c["iss"] == Str(cfg.issuer) && c["aud"] == Str(cfg.audience)
  {
    IssuedUserClaims(user, cfg, now);
    IssuedPartyClaims(user, cfg, now);
  }

  lemma IssuedUserClaims(user: Subject, cfg: Config, now: real)
    requires Representable(user.createdAt) && Representable(user.updatedAt)
    ensures var c := IssuedClaims(user, cfg, now);
      && c["id"] == Num(user.id as real) && c["name"] == Str(user.name)
      && c["username"] == Str(user.username) && c["role"] == Str(user.role)
  {
  }

  lemma IssuedPartyClaims(user: Subject, cfg: Config, now: real)
    requires Representable(user.createdAt) && Representable(user.updatedAt)
    ensures var c := IssuedClaims(user, cfg, now);
      c["iss"] == Str(cfg.issuer) && c["aud"] == Str(cfg.audience)
  {
  }

  /** The time claims GenerateJWT writes: expiry and issue time in whole seconds, and the user's two
      timestamps in RFC 3339 form. */
  lemma IssuedTimeClaims(user: Subject, cfg: Config, now: real)
    requires Representable(user.createdAt) && Representable(user.updatedAt)
    ensures var c := IssuedClaims(user, cfg, now);
      && c["exp"] == Num(UnixSeconds(now + cfg.expiryNanos as real / 1_000_000_000.0) as real)
      && c["iat"] == Num(UnixSeconds(now) as real)
      && c["created_at"] == Str(Format(user.createdAt)) && c["updated_at"] == Str(Format(user.updatedAt))
  {
  }

  /** A token issued by GenerateJWT with an HMAC method passes VerifyJWT's checks at any moment before
      its expiry, and gives back the user's data, the configured issuer and audience, and the two
      timestamps unchanged. */
  lemma IssuedTokenVerifies(user: Subject, cfg: Config, issuedAt: real, checkedAt: real)
    requires cfg.algorithm in HmacMethods
    requires Representable(user.createdAt) && Representable(user.updatedAt)
    requires checkedAt < UnixSeconds(issuedAt + cfg.expiryNanos as real / 1_000_000_000.0) as real
    ensures GenerateJWT(user, cfg, issuedAt).Signed?
    ensures VerifyToken(GenerateJWT(user, cfg, issuedAt).token, cfg, checkedAt) == Accepted(Claims(
      user.id, user.name, user.username, user.role, cfg.issuer, cfg.audience,
      UnixSeconds(issuedAt + cfg.expiryNanos as real / 1_000_000_000.0), UnixSeconds(issuedAt),
      user.createdAt, user.updatedAt))
  {
    var t := GenerateJWT(user, cfg, issuedAt).token;
    var exp := UnixSeconds(issuedAt + cfg.expiryNanos as real / 1_000_000_000.0);
    IssuedIdentityClaims(user, cfg, issuedAt);
    IssuedTimeClaims(user, cfg, issuedAt);
    ParseFormat(user.createdAt);
    ParseFormat(user.updatedAt);
    TruncateWhole(user.id);
    TruncateWhole(exp);
    TruncateWhole(UnixSeconds(issuedAt));
    IssuedPassesLibrary(user, cfg, issuedAt, checkedAt);
    assert WellFormed(t, cfg, checkedAt);
  }

  /** The library accepts an issued token before its expiry: right algorithm and key, a numeric exp
      after now, and no nbf. */
  lemma IssuedPassesLibrary(user: Subject, cfg: Config, issuedAt: real, checkedAt: real)
    requires cfg.algorithm in HmacMethods
    requires Representable(user.createdAt) && Representable(user.updatedAt)
    requires checkedAt < UnixSeconds(issuedAt + cfg.expiryNanos as real / 1_000_000_000.0) as real
    ensures LibraryCheck(GenerateJWT(user, cfg, issuedAt).token, cfg, checkedAt).None?
  {
    IssuedTimeClaims(user, cfg, issuedAt);
  }

  /** ParseJWT accepts every token VerifyJWT accepts, with the same claims except the two times, which
      it leaves unset. */
  lemma ParseAgreesWithVerify(t: Token, cfg: Config, now: real)
    requires VerifyToken(t, cfg, now).Accepted?
    ensures ParseToken(t, cfg, now).Accepted?
    ensures var v, p := VerifyToken(t, cfg, now).claims, ParseToken(t, cfg, now).claims;
      p == v.(createdAt := ZeroTime, updatedAt := ZeroTime)
  {
  }
}
