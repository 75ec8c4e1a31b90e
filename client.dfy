/**
 * The deterministic parts of `LLMClient`: the choice of provider, API key,
 * model and endpoint made by its constructor, the provider's display name,
 * and the cleanup of the commit message the model replies with. The API
 * calls themselves are not modelled.
 */
module LlmClient {
  import opened Wrappers
  import opened PyBuiltins
  import opened Configuration

  // ---------------------------------------------------------------------------
  // Commit-message cleanup (`suggest_commit_message`)
  // ---------------------------------------------------------------------------

  const Fence: string := "```"

  /** The lines between the first and the last, joined back: `"\n".join(lines[1:-1])`. */
  function InnerLines(lines: seq<string>): string
    requires |lines| > 2
  {
    Join(lines[1..|lines| - 1], '\n')
  }

  /** The fence removal applied to the stripped reply. */
  function Unfence(r: string): string {
    if StartsWith(r, Fence) then
      var lines := Split(r, '\n');
      if |lines| > 2 then InnerLines(lines) else r
    else r
  }

  /**
   * The message `suggest_commit_message` returns for the model's reply: the
   * stripped reply, with the first and last lines dropped when it opens with a
   * code fence and has more than two lines, stripped again.
   */
  function CleanCommitMessage(response: string): (m: string)
    ensures IsStripped(m)
    ensures !StartsWith(Strip(response), Fence) ==> m == Strip(response)
    ensures StartsWith(Strip(response), Fence) && |Split(Strip(response), '\n')| <= 2 ==> m == Strip(response)
    ensures StartsWith(Strip(response), Fence) && |Split(Strip(response), '\n')| > 2 ==>
      m == Strip(InnerLines(Split(Strip(response), '\n')))
  {
    var r := Strip(response);
    StripStripped(r);
    Strip(Unfence(r))
  }

  /** A plain message is its own cleanup. */
  lemma PlainMessageUnchanged(msg: string)
    requires IsStripped(msg) && !StartsWith(msg, Fence)
    ensures CleanCommitMessage(msg) == msg
  {
    StripStripped(msg);
  }

  /** A cleaned message that does not open with a fence is not changed by cleaning again. */
  lemma CleanupSettles(response: string)
    requires !StartsWith(CleanCommitMessage(response), Fence)
    ensures CleanCommitMessage(CleanCommitMessage(response)) == CleanCommitMessage(response)
  {
    PlainMessageUnchanged(CleanCommitMessage(response));
  }

  /** A reply `"```lang\n" + msg + "\n```"`, with any whitespace around it. */
  function FencedReply(lead: string, lang: string, msg: string, trail: string): string {
    lead + (Fence + lang + "\n" + msg + "\n" + Fence) + trail
  }

  /** The fenced message comes back exactly, whatever its own line structure. */
  lemma FencedReplyRoundTrip(lead: string, lang: string, msg: string, trail: string)
    requires AllSpace(lead) && AllSpace(trail) && '\n' !in lang
    requires msg != "" && IsStripped(msg)
    ensures CleanCommitMessage(FencedReply(lead, lang, msg, trail)) == msg
  {
    var reply := Fence + lang + "\n" + msg + "\n" + Fence;
    assert Strip(FencedReply(lead, lang, msg, trail)) == reply by {
      FencedStripped(lang, msg);
      StripSurrounded(lead, reply, trail);
    }
    UnfenceFenced(lang, msg);
    StripStripped(msg);
  }

  /** Removing the fence of a fenced reply leaves its message. */
  lemma UnfenceFenced(lang: string, msg: string)
    requires '\n' !in lang
    ensures Unfence(Fence + lang + "\n" + msg + "\n" + Fence) == msg
  {
    var reply := Fence + lang + "\n" + msg + "\n" + Fence;
    assert StartsWith(reply, Fence) by {
      assert reply[..3] == Fence;
    }
    FencedLines(lang, msg);
    Middle(Fence + lang, Split(msg, '\n'), Fence);
    JoinSplit(msg, '\n');
  }

  /** A fenced reply starts and ends with a backtick. */
  lemma FencedStripped(lang: string, msg: string)
    ensures var reply := Fence + lang + "\n" + msg + "\n" + Fence;
      reply != "" && IsStripped(reply)
  {
    var reply := Fence + lang + "\n" + msg + "\n" + Fence;
    assert reply[0] == '`' && reply[|reply| - 1] == '`';
  }

  /** The lines of a fenced reply: the opening fence, the message's lines, the closing fence. */
  lemma FencedLines(lang: string, msg: string)
    requires '\n' !in lang
    ensures Split(Fence + lang + "\n" + msg + "\n" + Fence, '\n') == [Fence + lang] + Split(msg, '\n') + [Fence]
  {
    var opening := Fence + lang;
    assert '\n' !in opening by {
      assert '\n' !in Fence;
    }
    var rest := msg + ['\n'] + Fence;
    assert Fence + lang + "\n" + msg + "\n" + Fence == opening + ['\n'] + rest;
    assert Split(opening + ['\n'] + rest, '\n') == [opening] + Split(rest, '\n') by {
      SplitFirst(opening, '\n', rest);
    }
    assert Split(rest, '\n') == Split(msg, '\n') + [Fence] by {
      SplitConcat(msg, '\n', Fence);
      assert '\n' !in Fence;
      SplitAbsent(Fence, '\n');
    }
    AppendAssoc([opening], Split(msg, '\n'), [Fence]);
  }

  // ---------------------------------------------------------------------------
  // Provider, key and endpoint selection (`__init__`, `_setup_*`)
  // ---------------------------------------------------------------------------

  datatype ClientError =
    | NoProvider(cause: ConfigError)   // raised by `get_active_provider`
    | GeminiKeyMissing                 // ValueError("Gemini API key not provided.")
    | OpenRouterKeyMissing             // ValueError("OpenRouter API key not provided.")

  const OpenRouterBaseUrl: string := "https://openrouter.ai/api/v1"

  /** `api_key or configured`: an explicit non-empty key wins. */
  function EffectiveKey(explicit: Option<string>, configured: string): (k: string)
    ensures explicit.Some? && explicit.value != "" ==> k == explicit.value
    ensures explicit.None? || explicit.value == "" ==> k == configured
  {
    if explicit.Some? && explicit.value != "" then explicit.value else configured
  }

  /** The provider the client uses: the one passed in, otherwise the configured choice. */
  function ChosenProvider(config: Config, provider: Option<LLMProvider>): (r: Result<LLMProvider, ClientError>)
    ensures provider.Some? ==> r == Ok(provider.value)
    ensures provider.None? ==> (r.Ok? <==> ActiveProvider(config).Ok?)
    ensures provider.None? && r.Ok? ==> r.value == ActiveProvider(config).value
    ensures provider.None? && r.Err? ==> r.error == NoProvider(ActiveProvider(config).error)
  {
    match provider
    case Some(p) => Ok(p)
    case None =>
      match ActiveProvider(config)
      case Ok(p) => Ok(p)
      case Err(e) => Err(NoProvider(e))
  }

  /** The fields a successfully constructed client holds. */
  datatype Settings = Settings(provider: LLMProvider, apiKey: string, modelName: string, baseUrl: Option<string>)

  /** What `LLMClient(api_key, provider)` ends up with, or the error it raises. */
  function ClientSettings(config: Config, apiKey: Option<string>, provider: Option<LLMProvider>): (r: Result<Settings, ClientError>)
    ensures r.Ok? ==> r.value.apiKey != ""
    ensures r.Ok? ==> ChosenProvider(config, provider) == Ok(r.value.provider)
    ensures r.Ok? ==> r.value.apiKey == EffectiveKey(apiKey, KeyOf(config, r.value.provider))
    ensures r.Ok? ==> (r.value.baseUrl == Some(OpenRouterBaseUrl) <==> r.value.provider == OpenRouter)
    ensures r.Ok? ==> r.value.modelName == (if r.value.provider == Gemini then config.geminiModel else config.openrouterModel)
    ensures ChosenProvider(config, provider).Ok? && apiKey.Some? && apiKey.value != "" ==> r.Ok? && r.value.apiKey == apiKey.value
    ensures r.Err? <==>
      (ChosenProvider(config, provider).Err? || EffectiveKey(apiKey, KeyOf(config, ChosenProvider(config, provider).value)) == "")
  {
    match ChosenProvider(config, provider)
    case Err(e) => Err(e)
    case Ok(p) =>
      var key := EffectiveKey(apiKey, KeyOf(config, p));
      if key == "" then Err(if p == Gemini then GeminiKeyMissing else OpenRouterKeyMissing)
      else if p == Gemini then Ok(Settings(Gemini, key, config.geminiModel, None))
      else Ok(Settings(OpenRouter, key, config.openrouterModel, Some(OpenRouterBaseUrl)))
  }

  /** An explicit provider is used even when the configuration would choose another or none. */
  lemma ExplicitProviderOverrides(config: Config, apiKey: Option<string>, p: LLMProvider)
    requires EffectiveKey(apiKey, KeyOf(config, p)) != ""
    ensures ClientSettings(config, apiKey, Some(p)).Ok?
    ensures ClientSettings(config, apiKey, Some(p)).value.provider == p
  {
  }

  /** `str.title()` of a single lower-case word: its first letter capitalised. */
  function TitleWord(w: string): (t: string)
    ensures |t| == |w|
    ensures |w| > 0 && 'a' <= w[0] <= 'z' ==> t[0] == (w[0] as int - 32) as char && t[1..] == w[1..]
  {
    if |w| > 0 && 'a' <= w[0] <= 'z' then [(w[0] as int - 32) as char] + w[1..] else w
  }

  /** `LLMClient` after `__init__` has returned. */
  class LLMClient {
    var provider: LLMProvider
    var apiKey: string
    var modelName: string
    var baseUrl: Option<string>

    /** The fields as one value. */
    function Current(): Settings
      reads this
    {
      Settings(provider, apiKey, modelName, baseUrl)
    }

    /** The provider is fixed; the setup methods fill in the rest. */
    constructor WithProvider(p: LLMProvider)
      ensures Current() == Settings(p, "", "", None)
    {
      provider := p;
      apiKey := "";
      modelName := "";
      baseUrl := None;
    }

    /** `_setup_gemini`; the SDK client it creates is not modelled. */
    method SetupGemini(config: Config, explicit: Option<string>) returns (o: Outcome<ClientError>)
      modifies this
      ensures Current() == old(Current()).(apiKey := EffectiveKey(explicit, config.geminiApiKey), modelName := config.geminiModel)
      ensures o == (if apiKey == "" then Fail(GeminiKeyMissing) else Pass)
    {
      apiKey := EffectiveKey(explicit, config.geminiApiKey);
      modelName := config.geminiModel;
      if apiKey == "" {
        return Fail(GeminiKeyMissing);
      }
      return Pass;
    }

    /** `_setup_openrouter` */
    method SetupOpenRouter(config: Config, explicit: Option<string>) returns (o: Outcome<ClientError>)
      modifies this
      ensures Current() == old(Current()).(apiKey := EffectiveKey(explicit, config.openrouterApiKey),
                                          modelName := config.openrouterModel, baseUrl := Some(OpenRouterBaseUrl))
      ensures o == (if apiKey == "" then Fail(OpenRouterKeyMissing) else Pass)
    {
      apiKey := EffectiveKey(explicit, config.openrouterApiKey);
      modelName := config.openrouterModel;
      baseUrl := Some(OpenRouterBaseUrl);
      if apiKey == "" {
        return Fail(OpenRouterKeyMissing);
      }
      return Pass;
    }

    /** `get_provider_name`: "Gemini" or "Openrouter". */
    function ProviderName(): (name: string)
      reads this
      ensures name == TitleWord(ProviderValue(provider))
      ensures name == (if provider == Gemini then "Gemini" else "Openrouter")
    {
      var v := ProviderValue(provider);
      assert v[0] in "go";
      TitleWord(v)
    }
  }

  /** `LLMClient(api_key, provider)`: a new client with the selected settings, or the error raised. */
  method NewClient(config: Config, apiKey: Option<string>, provider: Option<LLMProvider>)
    returns (r: Result<LLMClient, ClientError>)
    ensures r.Ok? ==> fresh(r.value)
    ensures r.Err? <==> ClientSettings(config, apiKey, provider).Err?
    ensures r.Ok? ==> r.value.Current() == ClientSettings(config, apiKey, provider).value
    ensures r.Err? ==> r.error == ClientSettings(config, apiKey, provider).error
  {
    var p := ChosenProvider(config, provider);
    if p.Err? {
      return Err(p.error);
    }
    var c := new LLMClient.WithProvider(p.value);
    var o;
    if p.value == Gemini {
      o := c.SetupGemini(config, apiKey);
    } else {
      o := c.SetupOpenRouter(config, apiKey);
    }
    if o.Fail? {
      return Err(o.error);
    }
    return Ok(c);
  }
}
