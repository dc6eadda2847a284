/**
 * app/services/auth_service.py: the token endpoint (password and
 * refresh-token grants), the access-token dependency, the "who am I"
 * endpoint and the `identity_required` decorator.
 */
module AuthService {
  import opened Wrappers
  import opened Http
  import opened Json
  import opened Config
  import opened Enums
  import opened Passwords
  import opened DbErrors
  import opened Tokens
  import opened UserStore
  import opened UserSchemas
  import opened RequestSchemas
  import opened ResponseSchemas

  const BadCredentials := HttpError(StatusUnauthorized, "Invalid authentication credentials")
  const NotVerified := HttpError(StatusForbidden, "User account is not verified. Please verify your account to proceed.")
  const AccountInactive := HttpError(StatusForbidden, "User account is inactive. Please contact support.")
  const AccountLocked := HttpError(StatusLocked, "User account is locked or suspended. Please contact support.")
  const BadGrant := HttpError(StatusBadRequest, "Invalid grant type or token")
  const NoPermission := HttpError(StatusForbidden, "Invalid permission to access this resource")

  /** The body of a successful token response. */
  datatype TokenPayload = TokenPayload(tokenType: string, accessToken: Jwt, expiresIn: int, refreshToken: Jwt)

  type TokenReply = Outcome<ResponseModel<TokenPayload>>

  /**
   * What one token request draws from outside the service: the clock (in
   * seconds), the salt a re-hash would use, the two `jti` values, and the
   * errors the database raises on the lookup and on the commit, if any.
   */
  datatype Env = Env(now: int, salt: nat, accessJti: string, refreshJti: string,
                     lookupFault: Option<DbError>, commitFault: Option<DbError>)

  /** The claims a login puts in both tokens: id, email and user type. */
  function IdentityClaims(row: UserRow): (c: Claims)
    ensures c.Keys == {"id", "email", "identity_type"}
    ensures c["id"] == CStr(row.id) && c["email"] == CStr(row.email) && c["identity_type"] == CInt(row.userType.Value())
  {
    map["id" := CStr(row.id), "email" := CStr(row.email), "identity_type" := CInt(row.userType.Value())]
  }

  /**
   * The 200 response carrying a fresh pair over `data`; both tokens carry
   * the caller's claims, and `TokenResponseValidates` states which of the
   * two `validate_access_token` accepts.
   */
  function TokenResponse(s: Settings, data: Claims, env: Env): (r: ResponseModel<TokenPayload>)
    requires "id" in data && data["id"] != CNull
    ensures r.status == StatusOk && r.success && r.payload.Some?
    ensures r.payload.value.tokenType == "bearer" && r.payload.value.expiresIn == s.accessTokenExpDelta
    ensures forall k :: k in data && k !in RegisteredClaims ==>
              && k in r.payload.value.accessToken.claims && r.payload.value.accessToken.claims[k] == data[k]
              && k in r.payload.value.refreshToken.claims && r.payload.value.refreshToken.claims[k] == data[k]
  {
    var pair := IssuedPair(s, data, env.now, env.accessJti, env.refreshJti);
    Success(StatusOk, Some(TokenPayload("bearer", pair.access, s.accessTokenExpDelta, pair.refresh)), None)
  }

  /** The response's access token is accepted from `now` until it expires, and its refresh token is not. */
  lemma TokenResponseValidates(s: Settings, data: Claims, env: Env)
    requires "id" in data && data["id"] != CNull
    ensures var p := TokenResponse(s, data, env).payload.value;
      && (s.accessTokenExpDelta > 0 ==> ValidateAccessToken(s, p.accessToken, env.now).Done?)
      && ValidateAccessToken(s, p.refreshToken, env.now).Raised?
  {
    IssuedTokenLifetime(s, data, AccessToken, s.accessTokenExpDelta, env.now, env.accessJti, env.now);
    PairKindsAreSeparate(s, data, env.now, env.accessJti, env.refreshJti, env.now);
  }

  // ---------------------------------------------------------------------
  // _login_for_access_token

  /** The login's lookup: the one user whose email or username is the identifier. */
  function LoginLookup(rows: Rows, creds: UserCredentials, env: Env): Fetched
  {
    OneOrNone(rows, [EmailOrUsernameIs(creds.identifier)], env.lookupFault)
  }

  /** The stored value is an argon2 hash of `password`. */
  predicate Matches(password: string, stored: StoredPassword)
  {
    stored.Argon2Hash? && stored.secret == password
  }

  /** Every gate of the login passes: one user, right password, verified, active, and any re-hash committed. */
  predicate LoginAllowed(rows: Rows, creds: UserCredentials, env: Env)
  {
    var f := LoginLookup(rows, creds, env);
    && f.OneRow? && Matches(creds.password, f.row.password) && f.row.isVerified && f.row.status == Active
    && (NeedsUpdate(f.row.password) ==> env.commitFault.None?)
  }

  datatype LoginResult = LoginResult(reply: TokenReply, rows: Rows)

  /** The gates after a single user was found, in the order the service checks them. */
  function LoginFor(s: Settings, rows: Rows, row: UserRow, creds: UserCredentials, env: Env): LoginResult
  {
    match VerifyPassword(creds.password, row.password, env.salt)
    case Err(why) => LoginResult(Crashed("ValueError: " + why), rows)
    case Ok(check) =>
      if !check.verified then LoginResult(Raised(BadCredentials), rows)
      else if !row.isVerified then LoginResult(Raised(NotVerified), rows)
      else if row.status == Inactive then LoginResult(Raised(AccountInactive), rows)
      else if row.status == Suspended then LoginResult(Raised(AccountLocked), rows)
      else if check.updated.Some? then
        match Committed(rows[row.id := row.(password := check.updated.value)], env.commitFault)
        case Err(e) => LoginResult(Done(Failure(HandleDbErrors(e))), rows)
        case Ok(next) => LoginResult(Done(TokenResponse(s, IdentityClaims(row), env)), next)
      else LoginResult(Done(TokenResponse(s, IdentityClaims(row), env)), rows)
  }

  /**
   * `_login_for_access_token`: the reply and the table afterwards. The
   * login succeeds exactly when every gate passes, and the table changes
   * only by re-hashing the user's own password.
   */
  function LoginSpec(s: Settings, rows: Rows, creds: UserCredentials, env: Env): (r: LoginResult)
    requires Unique(rows)
    ensures Unique(r.rows)
    ensures (r.reply.Done? && r.reply.value.success) <==> LoginAllowed(rows, creds, env)
    ensures var f := LoginLookup(rows, creds, env);
      r.rows == if LoginAllowed(rows, creds, env) && NeedsUpdate(f.row.password)
                then rows[f.row.id := f.row.(password := HashPassword(creds.password, env.salt))]
                else rows
  {
    var f := LoginLookup(rows, creds, env);
    match f
    case FetchFailed(e) => LoginResult(Done(Failure(HandleDbErrors(e))), rows)
    case NoRow => LoginResult(Raised(BadCredentials), rows)
    case OneRow(row) =>
      OneRowIsStored(rows, [EmailOrUsernameIs(creds.identifier)], env.lookupFault);
      ReplaceKeepsUnique(rows, row.(password := HashPassword(creds.password, env.salt)));
      LoginFor(s, rows, row, creds, env)
  }

  /** Each refusal of a login is the error of the first gate that fails. */
  lemma LoginRefusals(s: Settings, rows: Rows, creds: UserCredentials, env: Env)
    requires Unique(rows)
    ensures var f := LoginLookup(rows, creds, env); var r := LoginSpec(s, rows, creds, env);
      && (f.FetchFailed? ==> r == LoginResult(Done(Failure(HandleDbErrors(f.error))), rows))
      && (r.reply == Raised(BadCredentials) <==>
            f.NoRow? || (f.OneRow? && f.row.password.Argon2Hash? && !Matches(creds.password, f.row.password)))
      && (r.reply.Crashed? <==> f.OneRow? && f.row.password.Unrecognised?)
      && (r.reply == Raised(NotVerified) <==> f.OneRow? && Matches(creds.password, f.row.password) && !f.row.isVerified)
      && (r.reply == Raised(AccountInactive) <==>
            f.OneRow? && Matches(creds.password, f.row.password) && f.row.isVerified && f.row.status == Inactive)
      && (r.reply == Raised(AccountLocked) <==>
            f.OneRow? && Matches(creds.password, f.row.password) && f.row.isVerified && f.row.status == Suspended)
      && (f.OneRow? && Matches(creds.password, f.row.password) && f.row.isVerified && f.row.status == Active
          && NeedsUpdate(f.row.password) && env.commitFault.Some? ==>
            r == LoginResult(Done(Failure(HandleDbErrors(env.commitFault.value))), rows))
  {
  }

  /** A successful login hands out an access token for the user it found, accepted until it expires. */
  lemma LoginTokens(s: Settings, rows: Rows, creds: UserCredentials, env: Env)
    requires Unique(rows) && LoginAllowed(rows, creds, env)
    ensures var f := LoginLookup(rows, creds, env); var r := LoginSpec(s, rows, creds, env);
      && r.reply.Done? && r.reply.value.payload.Some?
      && r.reply.value.payload.value.accessToken.claims["id"] == CStr(f.row.id)
      && r.reply.value.payload.value.accessToken.claims["email"] == CStr(f.row.email)
      && r.reply.value.payload.value.accessToken.claims["identity_type"] == CInt(f.row.userType.Value())
      && (s.accessTokenExpDelta > 0 ==> ValidateAccessToken(s, r.reply.value.payload.value.accessToken, env.now).Done?)
  {
    var row := LoginLookup(rows, creds, env).row;
    LoginReply(s, rows, creds, env);
    IdentityTokens(s, row, env);
    TokenResponseValidates(s, IdentityClaims(row), env);
  }

  lemma LoginReply(s: Settings, rows: Rows, creds: UserCredentials, env: Env)
    requires Unique(rows) && LoginAllowed(rows, creds, env)
    ensures LoginSpec(s, rows, creds, env).reply == Done(TokenResponse(s, IdentityClaims(LoginLookup(rows, creds, env).row), env))
  {
    var row := LoginLookup(rows, creds, env).row;
    OneRowIsStored(rows, [EmailOrUsernameIs(creds.identifier)], env.lookupFault);
    assert LoginSpec(s, rows, creds, env) == LoginFor(s, rows, row, creds, env);
    AllowedLoginIssues(s, rows, row, creds, env);
  }

  /** The access token of a response over a user's identity claims carries those claims. */
  lemma IdentityTokens(s: Settings, row: UserRow, env: Env)
    ensures var token := TokenResponse(s, IdentityClaims(row), env).payload.value.accessToken;
      && "id" in token.claims && token.claims["id"] == CStr(row.id)
      && "email" in token.claims && token.claims["email"] == CStr(row.email)
      && "identity_type" in token.claims && token.claims["identity_type"] == CInt(row.userType.Value())
  {
    var data := IdentityClaims(row);
    assert "id" !in RegisteredClaims && "email" !in RegisteredClaims && "identity_type" !in RegisteredClaims;
    ResponseCarries(s, data, env, "id");
    ResponseCarries(s, data, env, "email");
    ResponseCarries(s, data, env, "identity_type");
  }

  /** One unregistered claim of `data`, carried into the response's access token. */
  lemma ResponseCarries(s: Settings, data: Claims, env: Env, k: string)
    requires "id" in data && data["id"] != CNull && k in data && k !in RegisteredClaims
    ensures var claims := TokenResponse(s, data, env).payload.value.accessToken.claims;
      k in claims && claims[k] == data[k]
  {
  }

  lemma AllowedLoginIssues(s: Settings, rows: Rows, row: UserRow, creds: UserCredentials, env: Env)
    requires Unique(rows) && row.id in rows && rows[row.id] == row
    requires Matches(creds.password, row.password) && row.isVerified && row.status == Active
    requires NeedsUpdate(row.password) ==> env.commitFault.None?
    ensures LoginFor(s, rows, row, creds, env).reply == Done(TokenResponse(s, IdentityClaims(row), env))
  {
    if NeedsUpdate(row.password) {
      RehashedLoginIssues(s, rows, row, creds, env);
    } else {
      CurrentHashLoginIssues(s, rows, row, creds, env);
    }
  }

  /** With a current hash, nothing is written and the login issues the tokens. */
  lemma CurrentHashLoginIssues(s: Settings, rows: Rows, row: UserRow, creds: UserCredentials, env: Env)
    requires Matches(creds.password, row.password) && row.isVerified && row.status == Active
    requires !NeedsUpdate(row.password)
    ensures LoginFor(s, rows, row, creds, env).reply == Done(TokenResponse(s, IdentityClaims(row), env))
  {
  }

  /** With an outdated hash, the re-hashed row commits and the login goes on to issue the tokens. */
  lemma RehashedLoginIssues(s: Settings, rows: Rows, row: UserRow, creds: UserCredentials, env: Env)
    requires Unique(rows) && row.id in rows && rows[row.id] == row
    requires Matches(creds.password, row.password) && row.isVerified && row.status == Active
    requires NeedsUpdate(row.password) && env.commitFault.None?
    ensures LoginFor(s, rows, row, creds, env).reply == Done(TokenResponse(s, IdentityClaims(row), env))
  {
    var updated := row.(password := HashPassword(creds.password, env.salt));
    assert Committed(rows[row.id := updated], env.commitFault).Ok? by {
      ReplaceKeepsUnique(rows, updated);
    }
  }


  /** `_login_for_access_token` against the table, step by step. */
  method Login(db: UserTable, s: Settings, creds: UserCredentials, env: Env) returns (reply: TokenReply)
    requires db.Valid()
    modifies db
    ensures db.Valid()
    ensures reply == LoginSpec(s, old(db.rows), creds, env).reply
    ensures db.rows == LoginSpec(s, old(db.rows), creds, env).rows
  {
    var fetched := db.ScalarOneOrNone([EmailOrUsernameIs(creds.identifier)], env.lookupFault);
    if fetched.FetchFailed? {
      return Done(Failure(HandleDbErrors(fetched.error)));
    }
    if fetched.NoRow? {
      return Raised(BadCredentials);
    }
    var row := fetched.row;
    OneRowIsStored(db.rows, [EmailOrUsernameIs(creds.identifier)], env.lookupFault);
    var check := VerifyPassword(creds.password, row.password, env.salt);
    if check.Err? {
      return Crashed("ValueError: " + check.error);
    }
    if !check.value.verified {
      return Raised(BadCredentials);
    }
    if !row.isVerified {
      return Raised(NotVerified);
    }
    if row.status == Inactive {
      return Raised(AccountInactive);
    }
    if row.status == Suspended {
      return Raised(AccountLocked);
    }
    if check.value.updated.Some? {
      ReplaceKeepsUnique(db.rows, row.(password := check.value.updated.value));
      var error := db.Commit(db.rows[row.id := row.(password := check.value.updated.value)], env.commitFault);
      if error.Some? {
        return Done(Failure(HandleDbErrors(error.value)));
      }
    }
    var pair := GenerateTokens(s, IdentityClaims(row), env.now, env.accessJti, env.refreshJti);
    reply := Done(Success(StatusOk, Some(TokenPayload("bearer", pair.access, s.accessTokenExpDelta, pair.refresh)), None));
  }

  // ---------------------------------------------------------------------
  // generate_access_token

  /** The claims a refresh grant copies from the refresh token into the new pair. */
  function RefreshedClaims(payload: Claims): (c: Claims)
    requires "id" in payload && "email" in payload && "identity_type" in payload
    ensures c.Keys == {"id", "email", "identity_type"}
    ensures forall k :: k in c ==> c[k] == payload[k]
  {
    map["id" := payload["id"], "email" := payload["email"], "identity_type" := payload["identity_type"]]
  }

  /**
   * The refresh-token grant: a decodable token whose header says
   * `refresh_token` buys a new pair over its id, email and identity type
   * (a token missing either of the last two is a KeyError); any other
   * decodable token is a bad grant. The table is not consulted.
   */
  function RefreshGrant(s: Settings, token: Jwt, env: Env): (r: TokenReply)
    ensures !DecodeToken(s, token, env.now).Done? ==> r.Raised? || r.Crashed?
    ensures DecodeToken(s, token, env.now).Raised? ==> r == Raised(DecodeToken(s, token, env.now).error)
    ensures DecodeToken(s, token, env.now).Done? && token.ttyp != Some(RefreshToken.Value()) ==> r == Raised(BadGrant)
    ensures r.Done? <==>
              DecodeToken(s, token, env.now).Done? && token.ttyp == Some(RefreshToken.Value())
              && "email" in token.claims && "identity_type" in token.claims
    ensures r.Done? ==> r.value.success && r.value.payload.Some?
    ensures r.Done? ==> forall k :: k in {"id", "email", "identity_type"} ==>
              k in r.value.payload.value.accessToken.claims && r.value.payload.value.accessToken.claims[k] == token.claims[k]
  {
    match DecodeToken(s, token, env.now)
    case Raised(e) => Raised(e)
    case Crashed(why) => Crashed(why)
    case Done(d) =>
      if d.ttyp != Some(RefreshToken.Value()) then Raised(BadGrant)
      else if "email" !in d.payload then Crashed("KeyError: 'email'")
      else if "identity_type" !in d.payload then Crashed("KeyError: 'identity_type'")
      else Done(TokenResponse(s, RefreshedClaims(d.payload), env))
  }

  /** `generate_access_token` on a request that passed its validator. */
  function GrantSpec(s: Settings, rows: Rows, req: LoginRequest, env: Env): (r: LoginResult)
    requires Unique(rows) && CarriesGrantInput(req)
    ensures Unique(r.rows)
    ensures req.grantType == Password ==> r == LoginSpec(s, rows, req.credentials.value, env)
    ensures req.grantType == RefreshTokenGrant ==> r.rows == rows
  {
    match req.grantType
    case Password => LoginSpec(s, rows, req.credentials.value, env)
    case RefreshTokenGrant => LoginResult(RefreshGrant(s, req.refreshToken.value, env), rows)
  }

  /** A refresh grant answers alike whatever the table holds: deleting or suspending a user does not stop it. */
  lemma RefreshIgnoresTable(s: Settings, rows1: Rows, rows2: Rows, req: LoginRequest, env: Env)
    requires Unique(rows1) && Unique(rows2) && CarriesGrantInput(req) && req.grantType == RefreshTokenGrant
    ensures GrantSpec(s, rows1, req, env).reply == GrantSpec(s, rows2, req, env).reply
  {
  }

  method GenerateAccessToken(db: UserTable, s: Settings, req: LoginRequest, env: Env) returns (reply: TokenReply)
    requires db.Valid() && CarriesGrantInput(req)
    modifies db
    ensures db.Valid()
    ensures reply == GrantSpec(s, old(db.rows), req, env).reply
    ensures db.rows == GrantSpec(s, old(db.rows), req, env).rows
  {
    if req.grantType == Password {
      reply := Login(db, s, req.credentials.value, env);
      return;
    }
    var decoded := DecodeToken(s, req.refreshToken.value, env.now);
    if decoded.Raised? {
      return Raised(decoded.error);
    }
    if decoded.Crashed? {
      return Crashed(decoded.reason);
    }
    var payload := decoded.value.payload;
    if decoded.value.ttyp == Some(RefreshToken.Value()) {
      if "email" !in payload {
        return Crashed("KeyError: 'email'");
      }
      if "identity_type" !in payload {
        return Crashed("KeyError: 'identity_type'");
      }
      var pair := GenerateTokens(s, RefreshedClaims(payload), env.now, env.accessJti, env.refreshJti);
      return Done(Success(StatusOk, Some(TokenPayload("bearer", pair.access, s.accessTokenExpDelta, pair.refresh)), None));
    }
    reply := Raised(BadGrant);
  }

  // ---------------------------------------------------------------------
  // verify_access_token

  /** The fields the "who am I" response leaves out. */
  const WhoAmIExcluded: set<string> := {"is_deleted", "is_verified", "created_at", "updated_at"}

  /**
   * `verify_access_token`, given the payload of a validated access token:
   * the user stored under the token's id, deleted or not, serialised
   * without its deletion and verification flags; an id with no row is an
   * invalid token.
   */
  function VerifyAccessToken(rows: Rows, payload: Claims, fault: Option<DbError>): (r: Outcome<ResponseModel<Json>>)
    requires Unique(rows) && Present(payload, "id")
    ensures payload["id"].CStr? && fault.None? ==> (r == Raised(InvalidToken) <==> payload["id"].s !in rows)
    ensures payload["id"].CStr? && fault.None? ==> (r.Done? && r.value.success <==> payload["id"].s in rows)
    ensures fault.Some? && payload["id"].CStr? ==> r == Done(Failure(HandleDbErrors(fault.value)))
    ensures r.Done? && r.value.success ==>
              && payload["id"].CStr? && payload["id"].s in rows
              && r.value.payload == Some(JObject(OutUserJson(rows[payload["id"].s], payload["id"].s, WhoAmIExcluded)))
    ensures !payload["id"].CStr? ==> r.Crashed?
  {
    match payload["id"]
    case CStr(id) =>
      IdLookupIsUnique(rows, id, [IdIs(id)]);
      (match OneOrNone(rows, [IdIs(id)], fault)
       case FetchFailed(e) => Done(Failure(HandleDbErrors(e)))
       case NoRow => Raised(InvalidToken)
       case OneRow(row) =>
         OneRowIsStored(rows, [IdIs(id)], fault);
         Done(Success(StatusOk, Some(JObject(OutUserJson(row, id, WhoAmIExcluded))), None)))
    case _ => Crashed("ValueError: the id claim is not a UUID string")
  }

  // ---------------------------------------------------------------------
  // identity_required

  /** `UserType(payload['identity_type'])`, when the claim names a member. */
  function IdentityOf(payload: Claims): (t: Option<UserType>)
    ensures t.Some? <==> "identity_type" in payload && payload["identity_type"].CInt? && 0 <= payload["identity_type"].i <= 2
    ensures t.Some? ==> payload["identity_type"] == CInt(t.value.Value())
  {
    if "identity_type" in payload && payload["identity_type"].CInt? then UserTypeFromValue(payload["identity_type"].i) else None
  }

  /**
   * The `identity_required(required)` wrapper's check before it calls the
   * endpoint: no list lets every caller through; otherwise the token's
   * identity type must be listed, and a claim that names no user type
   * (or is missing) is an unhandled error.
   */
  function IdentityRequired(required: Option<seq<UserType>>, payload: Claims): (r: Outcome<()>)
    ensures required.None? ==> r == Done(())
    ensures required.Some? ==> (r.Done? <==> IdentityOf(payload).Some? && IdentityOf(payload).value in required.value)
    ensures required.Some? && IdentityOf(payload).Some? && IdentityOf(payload).value !in required.value ==> r == Raised(NoPermission)
    ensures required.Some? && IdentityOf(payload).None? ==> r.Crashed?
  {
    if required.None? then Done(())
    else match IdentityOf(payload)
      case None => Crashed("ValueError: identity_type is not a valid UserType")
      case Some(t) => if t in required.value then Done(()) else Raised(NoPermission)
  }

  /** A payload carrying the user's identity type passes exactly the identity checks that list that type. */
  lemma LoginIdentityChecks(row: UserRow, required: seq<UserType>, token: Jwt)
    requires "identity_type" in token.claims && token.claims["identity_type"] == CInt(row.userType.Value())
    ensures IdentityRequired(Some(required), token.claims).Done? <==> row.userType in required
    ensures row.userType !in required ==> IdentityRequired(Some(required), token.claims) == Raised(NoPermission)
  {
    ValueRoundTrips(row.userType, Active);
  }
}
