/** The `auth` command (src/commands/auth.ts): `set` stores a token in the
    config, `show` reports the token and the API URL with where each comes
    from, and `clear` empties the config file. */
module Auth {
  import opened Wrappers
  import opened JsStrings
  import opened Config

  const DefaultUrl := "http://localhost:23373"

  /** `${token.slice(0, 8)}...${token.slice(-4)}`. */
  function MaskToken(t: string): (r: string)
    ensures |r| <= 15
    ensures |r| == (if |t| < 8 then |t| else 8) + 3 + (if |t| < 4 then |t| else 4)
    ensures |t| >= 8 ==> r == t[..8] + "..." + t[|t| - 4..]
    ensures 4 <= |t| < 8 ==> r == t + "..." + t[|t| - 4..]
    ensures |t| < 4 ==> r == t + "..." + t
  {
    Slice(t, 0, 8) + "..." + Slice(t, -4, |t|)
  }

  /** The mask hides nothing of a token of at most twelve characters: each
      character is shown in the first part or in the last. */
  lemma ShortTokenFullyShown(t: string, i: nat)
    requires |t| <= 12 && i < |t|
    ensures var r := MaskToken(t);
      (i < 8 && r[i] == t[i]) || (i >= |t| - 4 && r[|r| - (|t| - i)] == t[i])
  {
  }

  /** How the token line reads. */
  datatype TokenLine = FromEnv | Masked(text: string) | NotSet

  /** Where the URL comes from, and the dim label printed after it. */
  datatype UrlSource = FromEnvUrl | FromConfig | DefaultUrlSource

  function UrlLabel(s: UrlSource): string {
    match s
    case FromEnvUrl => "(from BEEPER_URL env)"
    case FromConfig => ""
    case DefaultUrlSource => "(default)"
  }

  datatype AuthView = AuthView(token: TokenLine, url: string, urlSource: UrlSource)

  /** `auth show` in the environment `env` with `file` on disk: the config
      it reads is `getConfig()`, so when either variable is set the file's
      token and URL are not consulted at all. */
  function ShowAuth(env: Env, file: BeeperConfig): (v: AuthView)
    ensures v.token.FromEnv? <==> Truthy(env.beeperToken)
    ensures v.token.Masked? <==> !Overrides(env) && Truthy(file.token)
    ensures v.token.Masked? ==> v.token.text == MaskToken(file.token.value)
    ensures v.urlSource == FromEnvUrl <==> Truthy(env.beeperUrl)
    ensures v.urlSource == FromConfig <==> !Overrides(env) && Truthy(file.baseUrl)
    ensures v.urlSource == FromEnvUrl ==> v.url == env.beeperUrl.value
    ensures v.urlSource == FromConfig ==> v.url == file.baseUrl.value
    ensures v.urlSource == DefaultUrlSource ==> v.url == DefaultUrl
  {
    var config := GetConfig(env, file);
    var token :=
      if Truthy(env.beeperToken) then FromEnv
      else if Truthy(config.token) then Masked(MaskToken(config.token.value))
      else NotSet;
    var url :=
      if Truthy(env.beeperUrl) then env.beeperUrl.value
      else if Truthy(config.baseUrl) then config.baseUrl.value
      else DefaultUrl;
    var source :=
      if Truthy(env.beeperUrl) then FromEnvUrl
      else if Truthy(config.baseUrl) then FromConfig
      else DefaultUrlSource;
    AuthView(token, url, source)
  }

  /** With only BEEPER_URL set, a token saved in the file is reported as not set. */
  lemma UrlVariableHidesFileToken(env: Env, file: BeeperConfig)
    requires Truthy(env.beeperUrl) && !Truthy(env.beeperToken)
    ensures ShowAuth(env, file).token == NotSet
  {
  }

  /** With only BEEPER_TOKEN set, a URL saved in the file is ignored for the default. */
  lemma TokenVariableHidesFileUrl(env: Env, file: BeeperConfig)
    requires Truthy(env.beeperToken) && !Truthy(env.beeperUrl)
    ensures ShowAuth(env, file).url == DefaultUrl && ShowAuth(env, file).urlSource == DefaultUrlSource
  {
  }

  /** `auth set <token>` on the loaded config: only the token changes. */
  function WithToken(config: BeeperConfig, token: string): (c: BeeperConfig)
    ensures c.token == Some(token) && c.baseUrl == config.baseUrl && c.aliases == config.aliases
  {
    config.(token := Some(token))
  }

  /** `auth set <token>`: load, replace the token, save. */
  method SetToken(file: ConfigFile, token: string)
    modifies file
    ensures file.saved == WithToken(old(file.Loaded()), token)
    ensures !Overrides(file.env) ==>
      file.saved.baseUrl == old(file.saved.baseUrl) && file.saved.aliases == old(file.saved.aliases)
  {
    var config := file.Loaded();
    config := config.(token := Some(token));
    file.Save(config);
  }

  /** Without the variables, a token just set is what `auth show` masks next. */
  lemma SetThenShow(env: Env, file: BeeperConfig, token: string)
    requires !Overrides(env) && token != ""
    ensures ShowAuth(env, WithToken(GetConfig(env, file), token)).token == Masked(MaskToken(token))
    ensures ShowAuth(env, WithToken(GetConfig(env, file), token)).url == ShowAuth(env, file).url
  {
  }

  /** With a variable set, `set` writes the loaded config back: the file's
      aliases are dropped and its URL becomes BEEPER_URL's value. */
  lemma SetUnderOverride(env: Env, file: BeeperConfig, token: string)
    requires Overrides(env)
    ensures WithToken(GetConfig(env, file), token).aliases.None?
    ensures WithToken(GetConfig(env, file), token).baseUrl == env.beeperUrl
  {
  }

  /** `auth clear`: the file becomes `{}`. */
  method Clear(file: ConfigFile)
    modifies file
    ensures file.saved == EmptyConfig
  {
    file.Save(EmptyConfig);
  }

  /** After `clear`, and without the variables, nothing is configured: no
      token, the default URL and no aliases. */
  lemma ClearedShowsDefaults(env: Env)
    requires !Overrides(env)
    ensures ShowAuth(env, EmptyConfig) == AuthView(NotSet, DefaultUrl, DefaultUrlSource)
    ensures AliasTable(GetConfig(env, EmptyConfig)) == map[]
  {
  }
}
