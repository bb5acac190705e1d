/** The configuration the commands read and write: the persisted file, and
    the environment variables that override it when the config is loaded. */
module Config {
  import opened Wrappers

  /** The JSON object of the config file; an absent field is `None`. */
  datatype BeeperConfig = BeeperConfig(
    token: Option<string>,
    baseUrl: Option<string>,
    aliases: Option<map<string, string>>)

  /** `{}`. */
  const EmptyConfig := BeeperConfig(None, None, None)

  /** `BEEPER_TOKEN` and `BEEPER_URL`; `None` when the variable is unset. */
  datatype Env = Env(beeperToken: Option<string>, beeperUrl: Option<string>)

  /** JavaScript truthiness of an optional string: present and non-empty. */
  predicate Truthy(s: Option<string>) {
    s.Some? && s.value != ""
  }

  predicate Overrides(env: Env) {
    Truthy(env.beeperToken) || Truthy(env.beeperUrl)
  }

  /** `getConfig()`: when either variable is set (non-empty) the file is not
      read and the config holds only the two variables; otherwise it is the
      file's content (`{}` for a missing or unreadable file). */
  function GetConfig(env: Env, file: BeeperConfig): (c: BeeperConfig)
    ensures Overrides(env) ==> c.aliases.None? && c.token == env.beeperToken && c.baseUrl == env.beeperUrl
    ensures !Overrides(env) ==> c == file
  {
    if Overrides(env) then BeeperConfig(env.beeperToken, env.beeperUrl, None) else file
  }

  /** The alias table of a config; a missing `aliases` field reads as `{}`. */
  function AliasTable(c: BeeperConfig): map<string, string> {
    if c.aliases.Some? then c.aliases.value else map[]
  }

  /** The config file on disk together with the process environment. */
  class ConfigFile {
    var saved: BeeperConfig
    const env: Env

    constructor (env: Env, saved: BeeperConfig)
      ensures this.env == env && this.saved == saved
    {
      this.env := env;
      this.saved := saved;
    }

    /** What `getConfig()` returns now. */
    function Loaded(): BeeperConfig
      reads this
    {
      GetConfig(env, saved)
    }

    /** `saveConfig(c)`: the file now holds `c`. */
    method Save(c: BeeperConfig)
      modifies this
      ensures saved == c
    {
      saved := c;
    }
  }
}
