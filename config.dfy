/**
 * The token settings of app/configs/core.py, read from an environment
 * given as a map from variable name to text.
 */
module Config {
  import opened Wrappers
  import opened Strings

  datatype Settings = Settings(
    tokenAlgorithm: string,
    accessTokenExpDelta: int,   // minutes
    refreshTokenExpDelta: int,  // minutes
    tokenIssuer: string,
    tokenAudience: string,
    publicKey: string,
    privateKey: string)

  const DefaultAccessTokenExpDelta: int := 60 * 24
  const DefaultRefreshTokenExpDelta: int := 60 * 24 * 30
  const DefaultIssuer := "auth:loongrid"
  const DefaultAudience := "api:loongrid"

  /** The settings when only the two key variables are set. */
  function DefaultSettings(publicKey: string, privateKey: string): Settings
  {
    Settings("ES256", DefaultAccessTokenExpDelta, DefaultRefreshTokenExpDelta, DefaultIssuer, DefaultAudience,
             publicKey, privateKey)
  }

  /** An integer setting: its default when unset, a validation error when not an integer. */
  function IntSetting(env: map<string, string>, name: string, default: int): (r: Result<int, string>)
    ensures name !in env ==> r == Ok(default)
    ensures name in env ==> (r.Ok? <==> ParseInt(env[name]).Some?)
    ensures name in env && r.Ok? ==> Some(r.value) == ParseInt(env[name])
  {
    if name !in env then Ok(default)
    else match ParseInt(env[name])
      case Some(v) => Ok(v)
      case None => Err("validation error for " + name)
  }

  /**
   * Field by field as the settings class declares them. Both the issuer
   * and the audience are read from the variable TOKEN_ISSUER, and the two
   * keys have no default: without PUBLIC_KEY or PRIVATE_KEY the settings
   * fail to validate.
   */
  function LoadSettings(env: map<string, string>): (r: Result<Settings, string>)
    ensures r.Ok? ==> r.value.tokenAlgorithm == "ES256"
    ensures r.Ok? <==> IntSetting(env, "ACCESS_TOKEN_EXP_DELTA", DefaultAccessTokenExpDelta).Ok?
                       && IntSetting(env, "REFRESH_TOKEN_EXP_DELTA", DefaultRefreshTokenExpDelta).Ok?
                       && "PUBLIC_KEY" in env && "PRIVATE_KEY" in env
    ensures r.Ok? ==> r.value.publicKey == env["PUBLIC_KEY"] && r.value.privateKey == env["PRIVATE_KEY"]
  {
    match IntSetting(env, "ACCESS_TOKEN_EXP_DELTA", DefaultAccessTokenExpDelta)
    case Err(e) => Err(e)
    case Ok(access) =>
      match IntSetting(env, "REFRESH_TOKEN_EXP_DELTA", DefaultRefreshTokenExpDelta)
      case Err(e) => Err(e)
      case Ok(refresh) =>
        if "PUBLIC_KEY" !in env then Err("validation error for PUBLIC_KEY: field required")
        else if "PRIVATE_KEY" !in env then Err("validation error for PRIVATE_KEY: field required")
        else
          var issuer := if "TOKEN_ISSUER" in env then env["TOKEN_ISSUER"] else DefaultIssuer;
          var audience := if "TOKEN_ISSUER" in env then env["TOKEN_ISSUER"] else DefaultAudience;
          Ok(Settings("ES256", access, refresh, issuer, audience, env["PUBLIC_KEY"], env["PRIVATE_KEY"]))
  }

  /** An empty environment does not validate: the keys are required. */
  lemma EmptyEnvironmentRefused()
    ensures LoadSettings(map[]).Err?
  {
  }

  /**
   * With only the two keys set, every other default applies: 1440 and
   * 43200 minutes, distinct issuer and audience.
   */
  lemma DefaultsWithOnlyKeys(publicKey: string, privateKey: string)
    ensures LoadSettings(map["PUBLIC_KEY" := publicKey, "PRIVATE_KEY" := privateKey])
              == Ok(DefaultSettings(publicKey, privateKey))
    ensures DefaultSettings(publicKey, privateKey).accessTokenExpDelta == 1440
    ensures DefaultSettings(publicKey, privateKey).refreshTokenExpDelta == 43200
    ensures DefaultSettings(publicKey, privateKey).tokenIssuer != DefaultSettings(publicKey, privateKey).tokenAudience
  {
  }

  /** Setting TOKEN_ISSUER makes the audience equal to the issuer. */
  lemma IssuerVariableSetsAudience(env: map<string, string>)
    requires "TOKEN_ISSUER" in env
    ensures LoadSettings(env).Ok? ==>
              LoadSettings(env).value.tokenIssuer == env["TOKEN_ISSUER"] == LoadSettings(env).value.tokenAudience
  {
  }

  /** A variable named after the audience has no effect on the settings. */
  lemma AudienceVariableIgnored(env: map<string, string>, text: string)
    ensures LoadSettings(env["TOKEN_AUDIENCE" := text]) == LoadSettings(env)
  {
    var env' := env["TOKEN_AUDIENCE" := text];
    assert IntSetting(env', "ACCESS_TOKEN_EXP_DELTA", DefaultAccessTokenExpDelta)
        == IntSetting(env, "ACCESS_TOKEN_EXP_DELTA", DefaultAccessTokenExpDelta);
    assert IntSetting(env', "REFRESH_TOKEN_EXP_DELTA", DefaultRefreshTokenExpDelta)
        == IntSetting(env, "REFRESH_TOKEN_EXP_DELTA", DefaultRefreshTokenExpDelta);
  }
}
