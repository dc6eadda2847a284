/**
 * JSON Web Tokens as the authentication service issues and checks them
 * (`_generate_jwt_token`, `_generate_tokens`, `_decode_token` and
 * `validate_access_token` of app/services/auth_service.py).
 *
 * A token is an abstract value: the `ttyp` entry of its header, its claim
 * set, and whether it is authentic -- well formed, signed with the
 * service's key under the configured algorithm.  Time is whole seconds
 * since the epoch.
 */
module Tokens {
  import opened Wrappers
  import opened Http
  import opened Config
  import opened Enums

  datatype ClaimValue = CStr(s: string) | CInt(i: int) | CNull | CList(items: seq<ClaimValue>)

  type Claims = map<string, ClaimValue>

  datatype Jwt = Jwt(ttyp: Option<string>, claims: Claims, authentic: bool)

  /** What `_decode_token` returns: the verified payload and the header's `ttyp`. */
  datatype Decoded = Decoded(payload: Claims, ttyp: Option<string>)

  const InvalidToken := HttpError(StatusUnauthorized, "Invalid token")
  const ExpiredToken := HttpError(StatusUnauthorized, "Token has expired.")

  /** `payload.get(name) is not None` */
  predicate Present(c: Claims, name: string)
  {
    name in c && c[name] != CNull
  }

  /** The claims `jwt.decode` is told to require. */
  predicate HasRequiredClaims(c: Claims)
  {
    Present(c, "exp") && Present(c, "iat") && Present(c, "nbf") && Present(c, "iss") && Present(c, "jti") && Present(c, "aud")
  }

  /**
   * `int(value)` on a present time claim: a string is a ValueError, which
   * the decoder reports as an invalid token; a list is a TypeError, which
   * escapes the decoder.
   */
  function TimeClaim(v: ClaimValue): (r: Outcome<int>)
    requires v != CNull
    ensures r.Done? <==> v.CInt?
    ensures r.Raised? ==> r.error == InvalidToken
  {
    match v
    case CInt(i) => Done(i)
    case CStr(_) => Raised(InvalidToken)
    case CList(_) => Crashed("TypeError: int() argument must be a string, a number or a list")
  }

  /** The audience check: a string equal to the audience, or a list of strings containing it. */
  predicate AudienceAccepted(v: ClaimValue, audience: string)
  {
    match v
    case CStr(a) => a == audience
    case CList(items) => (forall k :: 0 <= k < |items| ==> items[k].CStr?) && CStr(audience) in items
    case _ => false
  }

  /**
   * PyJWT's time checks in its order: `iat` (an integer, not in the
   * future), `nbf` (an integer, not in the future) and `exp` (an integer,
   * still ahead). As from PyJWT 2.6 on, a token issued in the future is
   * refused like one that is not yet valid.
   */
  function TimeWindow(c: Claims, now: int): (r: Outcome<()>)
    requires HasRequiredClaims(c)
    ensures r.Done? <==>
              && c["iat"].CInt? && c["nbf"].CInt? && c["exp"].CInt?
              && c["iat"].i <= now && c["nbf"].i <= now < c["exp"].i
    ensures r.Raised? ==> r.error == InvalidToken || r.error == ExpiredToken
    ensures r == Raised(ExpiredToken) ==> c["exp"].CInt? && c["exp"].i <= now
    ensures c["iat"].CInt? && c["iat"].i > now ==> r == Raised(InvalidToken)
    ensures c["iat"].CInt? && c["nbf"].CInt? && c["exp"].CInt? && c["iat"].i <= now && c["nbf"].i <= now && c["exp"].i <= now ==>
              r == Raised(ExpiredToken)
  {
    match TimeClaim(c["iat"])
    case Raised(e) => Raised(e)
    case Crashed(why) => Crashed(why)
    case Done(iat) =>
      if iat > now then Raised(InvalidToken)
      else match TimeClaim(c["nbf"])
        case Raised(e) => Raised(e)
        case Crashed(why) => Crashed(why)
        case Done(nbf) =>
          if nbf > now then Raised(InvalidToken)
          else match TimeClaim(c["exp"])
            case Raised(e) => Raised(e)
            case Crashed(why) => Crashed(why)
            case Done(exp) => if exp <= now then Raised(ExpiredToken) else Done(())
  }

  /**
   * `_decode_token` at time `now`: the library's checks in its order
   * (signature, required claims, the time window, issuer, audience), then
   * the service's own check that an `id` claim is present. The header is
   * read only once all of these pass.
   */
  function DecodeToken(s: Settings, token: Jwt, now: int): (r: Outcome<Decoded>)
    ensures r.Done? ==> r.value == Decoded(token.claims, token.ttyp)
    ensures r.Raised? ==> r.error == InvalidToken || r.error == ExpiredToken
    ensures r.Done? <==>
              && token.authentic && HasRequiredClaims(token.claims)
              && token.claims["iat"].CInt? && token.claims["nbf"].CInt? && token.claims["exp"].CInt?
              && token.claims["iat"].i <= now && token.claims["nbf"].i <= now < token.claims["exp"].i
              && token.claims["iss"] == CStr(s.tokenIssuer)
              && AudienceAccepted(token.claims["aud"], s.tokenAudience)
              && Present(token.claims, "id")
    ensures r == Raised(ExpiredToken) ==>
              token.authentic && HasRequiredClaims(token.claims) && token.claims["exp"].CInt? && token.claims["exp"].i <= now
  {
    var c := token.claims;
    if !token.authentic then Raised(InvalidToken)
    else if !HasRequiredClaims(c) then Raised(InvalidToken)
    else match TimeWindow(c, now)
      case Raised(e) => Raised(e)
      case Crashed(why) => Crashed(why)
      case Done(_) =>
        if c["iss"] != CStr(s.tokenIssuer) then Raised(InvalidToken)
        else if !AudienceAccepted(c["aud"], s.tokenAudience) then Raised(InvalidToken)
        else if !Present(c, "id") then Raised(InvalidToken)
        else Done(Decoded(c, token.ttyp))
  }

  /** A token whose `iat` lies after `now` is refused as invalid, whatever its `nbf` and `exp` say. */
  lemma IssuedInFutureRefused(s: Settings, token: Jwt, now: int)
    requires token.authentic && HasRequiredClaims(token.claims)
    requires token.claims["iat"].CInt? && token.claims["iat"].i > now
    ensures DecodeToken(s, token, now) == Raised(InvalidToken)
  {
  }

  /** `validate_access_token`: a decoded token whose header does not say `access_token` is refused. */
  function ValidateAccessToken(s: Settings, token: Jwt, now: int): (r: Outcome<Decoded>)
    ensures r.Done? <==> DecodeToken(s, token, now).Done? && token.ttyp == Some(AccessToken.Value())
    ensures r.Done? ==> r == DecodeToken(s, token, now)
    ensures DecodeToken(s, token, now).Done? && token.ttyp != Some(AccessToken.Value()) ==> r == Raised(InvalidToken)
    ensures !DecodeToken(s, token, now).Done? ==> r == DecodeToken(s, token, now)
  {
    match DecodeToken(s, token, now)
    case Done(d) => if d.ttyp == Some(AccessToken.Value()) then Done(d) else Raised(InvalidToken)
    case Raised(e) => Raised(e)
    case Crashed(why) => Crashed(why)
  }

  /** The registered claims `_generate_jwt_token` adds to the caller's data. */
  const RegisteredClaims: set<string> := {"exp", "nbf", "iss", "iat", "sub", "aud", "jti"}

  /**
   * The token `_generate_jwt_token` signs: the caller's data plus the
   * registered claims, with `ttyp` in the header.
   */
  function IssuedToken(s: Settings, data: Claims, tokenType: TokenType, expDelta: int, now: int, jti: string): (t: Jwt)
    requires "id" in data
    ensures t.authentic && t.ttyp == Some(tokenType.Value())
    ensures t.claims.Keys == data.Keys + RegisteredClaims
    ensures forall k :: k in data && k !in RegisteredClaims ==> t.claims[k] == data[k]
    ensures t.claims["exp"] == CInt(now + expDelta * 60)
    ensures t.claims["nbf"] == t.claims["iat"] == CInt(now)
    ensures t.claims["sub"] == data["id"]
    ensures t.claims["iss"] == CStr(s.tokenIssuer) && t.claims["aud"] == CStr(s.tokenAudience)
    ensures t.claims["jti"] == CStr(jti)
  {
    var registered := map[
      "exp" := CInt(now + expDelta * 60), "nbf" := CInt(now), "iss" := CStr(s.tokenIssuer), "iat" := CInt(now),
      "sub" := data["id"], "aud" := CStr(s.tokenAudience), "jti" := CStr(jti)];
    Jwt(Some(tokenType.Value()), data + registered, true)
  }

  /**
   * `_generate_jwt_token`: copies the caller's data and adds the
   * registered claims one by one; the caller's map is left as it was.
   */
  method GenerateJwtToken(s: Settings, data: Claims, tokenType: TokenType, expDelta: int, now: int, jti: string)
    returns (token: Jwt)
    requires "id" in data
    ensures token == IssuedToken(s, data, tokenType, expDelta, now, jti)
  {
    var toEncode := data;
    toEncode := toEncode["exp" := CInt(now + expDelta * 60)];
    toEncode := toEncode["nbf" := CInt(now)];
    toEncode := toEncode["iss" := CStr(s.tokenIssuer)];
    toEncode := toEncode["iat" := CInt(now)];
    toEncode := toEncode["sub" := data["id"]];
    toEncode := toEncode["aud" := CStr(s.tokenAudience)];
    toEncode := toEncode["jti" := CStr(jti)];
    token := Jwt(Some(tokenType.Value()), toEncode, true);
  }

  datatype TokenPair = TokenPair(access: Jwt, refresh: Jwt)

  /** `_generate_tokens`: an access token and a refresh token over the same data, each with its own `jti`. */
  function IssuedPair(s: Settings, data: Claims, now: int, accessJti: string, refreshJti: string): (p: TokenPair)
    requires "id" in data
    ensures p.access == IssuedToken(s, data, AccessToken, s.accessTokenExpDelta, now, accessJti)
    ensures p.refresh == IssuedToken(s, data, RefreshToken, s.refreshTokenExpDelta, now, refreshJti)
  {
    TokenPair(IssuedToken(s, data, AccessToken, s.accessTokenExpDelta, now, accessJti),
              IssuedToken(s, data, RefreshToken, s.refreshTokenExpDelta, now, refreshJti))
  }

  method GenerateTokens(s: Settings, data: Claims, now: int, accessJti: string, refreshJti: string)
    returns (pair: TokenPair)
    requires "id" in data
    ensures pair == IssuedPair(s, data, now, accessJti, refreshJti)
  {
    var access := GenerateJwtToken(s, data, AccessToken, s.accessTokenExpDelta, now, accessJti);
    var refresh := GenerateJwtToken(s, data, RefreshToken, s.refreshTokenExpDelta, now, refreshJti);
    pair := TokenPair(access, refresh);
  }

  /**
   * A token the service issued decodes, under the same settings, to its
   * own claims exactly while `now <= later < now + expDelta minutes`;
   * from the expiry on it is reported as expired, and before its issue
   * time as invalid.
   */
  lemma IssuedTokenLifetime(s: Settings, data: Claims, tokenType: TokenType, expDelta: int, now: int, jti: string, later: int)
    requires "id" in data && data["id"] != CNull
    ensures var t := IssuedToken(s, data, tokenType, expDelta, now, jti);
      && (now <= later < now + expDelta * 60 <==> DecodeToken(s, t, later) == Done(Decoded(t.claims, Some(tokenType.Value()))))
      && (now <= later && now + expDelta * 60 <= later ==> DecodeToken(s, t, later) == Raised(ExpiredToken))
      && (later < now ==> DecodeToken(s, t, later) == Raised(InvalidToken))
  {
    var t := IssuedToken(s, data, tokenType, expDelta, now, jti);
    assert Present(t.claims, "id") by {
      if "id" in RegisteredClaims {
      } else {
        assert t.claims["id"] == data["id"];
      }
    }
  }

  /** Each half of a pair is accepted only where its kind is expected: a refresh token is never an access token. */
  lemma PairKindsAreSeparate(s: Settings, data: Claims, now: int, accessJti: string, refreshJti: string, later: int)
    requires "id" in data
    ensures var p := IssuedPair(s, data, now, accessJti, refreshJti);
      && p.access.ttyp == Some("access_token") && p.refresh.ttyp == Some("refresh_token")
      && ValidateAccessToken(s, p.refresh, later).Raised?
      && (DecodeToken(s, p.refresh, later).Done? ==> ValidateAccessToken(s, p.refresh, later) == Raised(InvalidToken))
  {
  }

  /** Decoding never looks at the header: tokens that differ only in `ttyp` decode alike up to that field. */
  lemma DecodeIgnoresHeader(s: Settings, claims: Claims, authentic: bool, h1: Option<string>, h2: Option<string>, now: int)
    ensures DecodeToken(s, Jwt(h1, claims, authentic), now).Done? <==> DecodeToken(s, Jwt(h2, claims, authentic), now).Done?
    ensures !DecodeToken(s, Jwt(h1, claims, authentic), now).Done? ==>
              DecodeToken(s, Jwt(h1, claims, authentic), now) == DecodeToken(s, Jwt(h2, claims, authentic), now)
  {
  }

  /** A token that is not authentic is refused as invalid, never as expired, whatever its claims say. */
  lemma ForgedTokenIsInvalid(s: Settings, token: Jwt, now: int)
    requires !token.authentic
    ensures DecodeToken(s, token, now) == Raised(InvalidToken)
  {
  }
}
