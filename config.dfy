/**
 * Configuration of the git-summarizer: the settings read from the
 * environment, the choice of LLM provider, and the lazily created global
 * configuration.
 */
module Configuration {
  import opened Wrappers
  import opened PyBuiltins

  /** `LLMProvider` */
  datatype LLMProvider = Gemini | OpenRouter

  /** The enum member's value. */
  function ProviderValue(p: LLMProvider): (v: string)
    ensures v == "gemini" || v == "openrouter"
  {
    match p
    case Gemini => "gemini"
    case OpenRouter => "openrouter"
  }

  /** The settings of `Config`. */
  datatype Config = Config(
    geminiApiKey: string,
    openrouterApiKey: string,
    defaultDays: int,
    maxDiffChars: int,
    geminiModel: string,
    openrouterModel: string,
    preferredProvider: string,
    slackWebhookUrl: string)

  datatype ConfigError =
    | NoProviderConfigured           // ValueError("No LLM API key configured. ...")
    | InvalidNumber(variable: string, text: string)   // ValueError from int() on a setting

  /** The message `get_active_provider` raises with. */
  const NoProviderMessage: string :=
    "No LLM API key configured. Please set one of:\n"
    + "  \U{2022} OPENROUTER_API_KEY (get free at https://openrouter.ai/keys) [RECOMMENDED]\n"
    + "  \U{2022} GEMINI_API_KEY (get at https://aistudio.google.com/apikey)"

  /** The process environment. */
  type Environment = map<string, string>

  /** `os.getenv(name, default)` */
  function GetEnv(env: Environment, name: string, default: string): (v: string)
    ensures name !in env ==> v == default
    ensures name in env ==> v == env[name]
  {
    if name in env then env[name] else default
  }

  /** `int(os.getenv(name, default))` */
  function IntSetting(env: Environment, name: string, default: string): (r: Result<int, ConfigError>)
    ensures r.Err? <==> PyInt(GetEnv(env, name, default)) == None
    ensures r.Err? ==> r.error == InvalidNumber(name, GetEnv(env, name, default))
  {
    var text := GetEnv(env, name, default);
    match PyInt(text)
    case Some(n) => Ok(n)
    case None => Err(InvalidNumber(name, text))
  }

  /** `Config.load()`: every field from its environment variable or its default. */
  function LoadConfig(env: Environment): (r: Result<Config, ConfigError>)
    ensures r.Ok? <==> IntSetting(env, "GIT_SUMMARIZER_DAYS", "7").Ok? && IntSetting(env, "GIT_SUMMARIZER_MAX_DIFF", "8000").Ok?
    ensures r.Ok? ==> r.value.geminiApiKey == GetEnv(env, "GEMINI_API_KEY", "")
    ensures r.Ok? ==> r.value.openrouterApiKey == GetEnv(env, "OPENROUTER_API_KEY", "")
    ensures r.Ok? ==> r.value.preferredProvider == GetEnv(env, "GIT_SUMMARIZER_PROVIDER", "auto")
    ensures r.Ok? ==> r.value.defaultDays == IntSetting(env, "GIT_SUMMARIZER_DAYS", "7").value
    ensures r.Ok? ==> r.value.maxDiffChars == IntSetting(env, "GIT_SUMMARIZER_MAX_DIFF", "8000").value
    ensures r.Ok? ==> r.value.geminiModel == GetEnv(env, "GIT_SUMMARIZER_GEMINI_MODEL", "gemini-flash-latest")
    ensures r.Ok? ==> r.value.openrouterModel == GetEnv(env, "GIT_SUMMARIZER_OPENROUTER_MODEL", "xiaomi/mimo-v2-flash:free")
    ensures r.Ok? ==> r.value.slackWebhookUrl == GetEnv(env, "SLACK_WEBHOOK_URL", "")
    // the fields are set in declaration order, so a bad day count is the error reported
    ensures IntSetting(env, "GIT_SUMMARIZER_DAYS", "7").Err? ==> r == Err(IntSetting(env, "GIT_SUMMARIZER_DAYS", "7").error)
    ensures IntSetting(env, "GIT_SUMMARIZER_DAYS", "7").Ok? && IntSetting(env, "GIT_SUMMARIZER_MAX_DIFF", "8000").Err?
      ==> r == Err(IntSetting(env, "GIT_SUMMARIZER_MAX_DIFF", "8000").error)
  {
    match IntSetting(env, "GIT_SUMMARIZER_DAYS", "7")
    case Err(e) => Err(e)
    case Ok(days) =>
      match IntSetting(env, "GIT_SUMMARIZER_MAX_DIFF", "8000")
      case Err(e) => Err(e)
      case Ok(maxDiff) =>
        Ok(Config(
          GetEnv(env, "GEMINI_API_KEY", ""),
          GetEnv(env, "OPENROUTER_API_KEY", ""),
          days,
          maxDiff,
          GetEnv(env, "GIT_SUMMARIZER_GEMINI_MODEL", "gemini-flash-latest"),
          GetEnv(env, "GIT_SUMMARIZER_OPENROUTER_MODEL", "xiaomi/mimo-v2-flash:free"),
          GetEnv(env, "GIT_SUMMARIZER_PROVIDER", "auto"),
          GetEnv(env, "SLACK_WEBHOOK_URL", "")))
  }

  /** The settings of an empty environment. */
  const DefaultConfig: Config :=
    Config("", "", 7, 8000, "gemini-flash-latest", "xiaomi/mimo-v2-flash:free", "auto", "")

  /** With nothing set, the defaults apply: a week, 8000 characters, automatic provider. */
  lemma LoadEmptyEnvironment(env: Environment)
    requires env == map[]
    ensures LoadConfig(env) == Ok(DefaultConfig)
  {
    PyIntOfIntToString(7);
    PyIntOfIntToString(8000);
    DigitsOfSeven();
    DigitsOfEightThousand();
  }

  lemma DigitsOfSeven()
    ensures IntToString(7) == "7"
  {
  }

  lemma DigitsOfEightThousand()
    ensures IntToString(8000) == "8000"
  {
    assert NatToString(8) == "8";
    assert NatToString(80) == "80";
    assert NatToString(800) == "800";
  }

  /** The API key that goes with a provider. */
  function KeyOf(c: Config, p: LLMProvider): string {
    match p
    case Gemini => c.geminiApiKey
    case OpenRouter => c.openrouterApiKey
  }

  /**
   * `Config.get_active_provider`. An explicit preference is honoured only
   * when its key is set and never falls back to the other provider; under
   * "auto" OpenRouter wins whenever its key is set; any other preference fails.
   */
  function ActiveProvider(c: Config): (r: Result<LLMProvider, ConfigError>)
    ensures r.Ok? ==> KeyOf(c, r.value) != ""
    ensures r.Err? ==> r.error == NoProviderConfigured
    ensures c.preferredProvider == "gemini" ==> (r.Ok? <==> c.geminiApiKey != "") && r != Ok(OpenRouter)
    ensures c.preferredProvider == "openrouter" ==> (r.Ok? <==> c.openrouterApiKey != "") && r != Ok(Gemini)
    ensures c.preferredProvider == "auto" && c.openrouterApiKey != "" ==> r == Ok(OpenRouter)
    ensures c.preferredProvider == "auto" && c.openrouterApiKey == "" ==> (r == Ok(Gemini) <==> c.geminiApiKey != "")
    ensures c.preferredProvider !in {"gemini", "openrouter", "auto"} ==> r.Err?
  {
    if c.preferredProvider == "gemini" && c.geminiApiKey != "" then Ok(Gemini)
    else if c.preferredProvider == "openrouter" && c.openrouterApiKey != "" then Ok(OpenRouter)
    else if c.preferredProvider == "auto" && c.openrouterApiKey != "" then Ok(OpenRouter)
    else if c.preferredProvider == "auto" && c.geminiApiKey != "" then Ok(Gemini)
    else Err(NoProviderConfigured)
  }

  /** A provider is available exactly when some preference-permitted key is set. */
  lemma ProviderAvailable(c: Config)
    ensures ActiveProvider(c).Ok? <==>
      || (c.preferredProvider == "gemini" && c.geminiApiKey != "")
      || (c.preferredProvider == "openrouter" && c.openrouterApiKey != "")
      || (c.preferredProvider == "auto" && (c.geminiApiKey != "" || c.openrouterApiKey != ""))
  {
  }

  /** `Config.validate`: passes exactly when a provider can be chosen. */
  function Validate(c: Config): (r: Outcome<ConfigError>)
    ensures r.Fail? <==> ActiveProvider(c).Err?
    ensures r.Fail? ==> r.error == NoProviderConfigured
  {
    match ActiveProvider(c)
    case Ok(_) => Pass
    case Err(e) => Fail(e)
  }

  /** The module-global `_config` and `get_config`. */
  class ConfigRegistry {
    var current: Option<Config>

    /** The module starts with `_config = None`. */
    constructor()
      ensures current == None
    {
      current := None;
    }

    /**
     * `get_config`: the first successful call loads and keeps the configuration;
     * every later call returns the kept one without reading the environment. A
     * failing load keeps nothing, so the next call tries again.
     */
    method GetConfig(env: Environment) returns (r: Result<Config, ConfigError>)
      modifies this
      ensures old(current).Some? ==> r == Ok(old(current).value) && current == old(current)
      ensures old(current).None? ==> r == LoadConfig(env)
      ensures old(current).None? ==> current == (if r.Ok? then Some(r.value) else None)
      ensures r.Ok? ==> current == Some(r.value)
    {
      if current.None? {
        var loaded := LoadConfig(env);
        if loaded.Ok? {
          current := Some(loaded.value);
        }
        return loaded;
      }
      return Ok(current.value);
    }
  }
}
