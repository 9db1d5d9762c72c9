/** `ConfigManager.getConfig()`: the API key and model name each come from the first
    non-empty source among the editor setting, the environment and a default, and are
    trimmed only after that choice. */
module Config {
  import opened Outcomes
  import opened Text

  /** The `readmeGenerator.*` editor settings; `None` when a setting is not set. */
  datatype Settings = Settings(groqApiKey: Option<string>, model: Option<string>, autoOpen: Option<bool>)

  /** The process environment variables the extension reads. */
  datatype Env = Env(groqApiKey: Option<string>, groqApiToken: Option<string>, defaultModel: Option<string>)

  datatype Config = Config(groqApiKey: string, model: string, autoOpen: bool)

  const DefaultModel: string := "llama-3.3-70b-versatile"

  /** Reference reading of a `a || b || ... || fallback` chain: the first candidate that
      is defined and non-empty, or the fallback when there is none. */
  function FirstTruthy(candidates: seq<Option<string>>, fallback: string): (r: string)
    ensures || (exists k :: 0 <= k < |candidates| && Truthy(candidates[k]) && r == candidates[k].value)
            || ((forall k :: 0 <= k < |candidates| ==> !Truthy(candidates[k])) && r == fallback)
  {
    if candidates == [] then fallback
    else if Truthy(candidates[0]) then candidates[0].value
    else FirstTruthy(candidates[1..], fallback)
  }

  /** The first truthy candidate wins over everything after it. */
  lemma {:induction false} FirstTruthyAt(candidates: seq<Option<string>>, fallback: string, k: nat)
    requires k < |candidates| && Truthy(candidates[k])
    requires forall j :: 0 <= j < k ==> !Truthy(candidates[j])
    ensures FirstTruthy(candidates, fallback) == candidates[k].value
  {
    if k > 0 {
      FirstTruthyAt(candidates[1..], fallback, k - 1);
    }
  }

  /** With no truthy candidate the chain yields its fallback. */
  lemma {:induction false} FirstTruthyNone(candidates: seq<Option<string>>, fallback: string)
    requires forall j :: 0 <= j < |candidates| ==> !Truthy(candidates[j])
    ensures FirstTruthy(candidates, fallback) == fallback
  {
    if candidates != [] {
      FirstTruthyNone(candidates[1..], fallback);
    }
  }

  /** `config.get(name, '')`: the setting, or the empty string when it is not set. */
  function Setting(value: Option<string>): string {
    value.GetOr("")
  }

  /** The candidates for the key, in the order the source tries them. */
  function KeyCandidates(settings: Settings, env: Env): seq<Option<string>> {
    [Some(Setting(settings.groqApiKey)), env.groqApiKey, env.groqApiToken]
  }

  function ModelCandidates(settings: Settings, env: Env): seq<Option<string>> {
    [Some(Setting(settings.model)), env.defaultModel]
  }

  /** `config.get('groqApiKey', '') || GROQ_API_KEY || GROQ_API_TOKEN || ''`, untrimmed. */
  function KeySource(settings: Settings, env: Env): string {
    Or(Some(Setting(settings.groqApiKey)), Or(env.groqApiKey, Or(env.groqApiToken, "")))
  }

  /** `config.get('model', '') || DEFAULT_MODEL || DefaultModel`, untrimmed. */
  function ModelSource(settings: Settings, env: Env): string {
    Or(Some(Setting(settings.model)), Or(env.defaultModel, DefaultModel))
  }

  /** `getConfig()`. */
  function GetConfig(settings: Settings, env: Env): (c: Config)
  {
    Config(Trim(KeySource(settings, env)), Trim(ModelSource(settings, env)), settings.autoOpen.GetOr(true))
  }

  /** The `||` chains pick the first non-empty source, in priority order: setting, then
      environment (`GROQ_API_KEY` before `GROQ_API_TOKEN`), then the default. */
  lemma SourcesAreFirstTruthy(settings: Settings, env: Env)
    ensures KeySource(settings, env) == FirstTruthy(KeyCandidates(settings, env), "")
    ensures ModelSource(settings, env) == FirstTruthy(ModelCandidates(settings, env), DefaultModel)
  {
    var keys := KeyCandidates(settings, env);
    assert keys[1..][1..][1..] == [];
    assert FirstTruthy(keys[1..][1..], "") == Or(env.groqApiToken, "");
    assert FirstTruthy(keys[1..], "") == Or(env.groqApiKey, Or(env.groqApiToken, ""));
    var models := ModelCandidates(settings, env);
    assert models[1..][1..] == [];
  }

  /** The key and the model are the trimmed first non-empty source. */
  lemma GetConfigChains(settings: Settings, env: Env)
    ensures GetConfig(settings, env).groqApiKey == Trim(FirstTruthy(KeyCandidates(settings, env), ""))
    ensures GetConfig(settings, env).model == Trim(FirstTruthy(ModelCandidates(settings, env), DefaultModel))
  {
    SourcesAreFirstTruthy(settings, env);
  }

  /** A non-empty setting decides the key and the model whatever the environment holds. */
  lemma SettingsTakePrecedence(settings: Settings, env: Env, env': Env)
    ensures Setting(settings.groqApiKey) != "" ==>
      GetConfig(settings, env).groqApiKey == GetConfig(settings, env').groqApiKey
        == Trim(settings.groqApiKey.value)
    ensures Setting(settings.model) != "" ==>
      GetConfig(settings, env).model == GetConfig(settings, env').model == Trim(settings.model.value)
  {
    SourcesAreFirstTruthy(settings, env);
    SourcesAreFirstTruthy(settings, env');
    if Setting(settings.groqApiKey) != "" {
      FirstTruthyAt(KeyCandidates(settings, env), "", 0);
      FirstTruthyAt(KeyCandidates(settings, env'), "", 0);
    }
    if Setting(settings.model) != "" {
      FirstTruthyAt(ModelCandidates(settings, env), DefaultModel, 0);
      FirstTruthyAt(ModelCandidates(settings, env'), DefaultModel, 0);
    }
  }

  /** The emptiness test comes before trimming: a setting of blanks shadows a key in the
      environment and leaves the key empty, so the extension reports it as not set. */
  lemma BlankSettingShadowsEnvironment(settings: Settings, env: Env)
    requires settings.groqApiKey.Some? && settings.groqApiKey.value != ""
    requires AllSpace(settings.groqApiKey.value)
    ensures GetConfig(settings, env).groqApiKey == ""
    ensures !Configured(GetConfig(settings, env))
  {
    assert KeySource(settings, env) == settings.groqApiKey.value;
    TrimEmpty(settings.groqApiKey.value);
  }

  /** Which source the key comes from when the setting is empty. */
  lemma KeySourceFromEnvironment(settings: Settings, env: Env)
    requires Setting(settings.groqApiKey) == ""
    ensures Truthy(env.groqApiKey) ==> KeySource(settings, env) == env.groqApiKey.value
    ensures !Truthy(env.groqApiKey) && Truthy(env.groqApiToken) ==> KeySource(settings, env) == env.groqApiToken.value
    ensures !Truthy(env.groqApiKey) && !Truthy(env.groqApiToken) ==> KeySource(settings, env) == ""
  {
    SourcesAreFirstTruthy(settings, env);
    var keys := KeyCandidates(settings, env);
    if Truthy(env.groqApiKey) {
      FirstTruthyAt(keys, "", 1);
    } else if Truthy(env.groqApiToken) {
      FirstTruthyAt(keys, "", 2);
    } else {
      FirstTruthyNone(keys, "");
    }
  }

  /** Without a key setting the environment decides, `GROQ_API_KEY` first; without
      either the key is empty. */
  lemma KeyFromEnvironment(settings: Settings, env: Env)
    requires Setting(settings.groqApiKey) == ""
    ensures Truthy(env.groqApiKey) ==> GetConfig(settings, env).groqApiKey == Trim(env.groqApiKey.value)
    ensures !Truthy(env.groqApiKey) && Truthy(env.groqApiToken) ==>
      GetConfig(settings, env).groqApiKey == Trim(env.groqApiToken.value)
    ensures !Truthy(env.groqApiKey) && !Truthy(env.groqApiToken) ==> GetConfig(settings, env).groqApiKey == ""
  {
    KeySourceFromEnvironment(settings, env);
    if !Truthy(env.groqApiKey) && !Truthy(env.groqApiToken) {
      TrimEmpty("");
    }
  }

  /** Without a model setting `DEFAULT_MODEL` decides, and without it the default model
      is used. */
  lemma ModelSourceFromEnvironment(settings: Settings, env: Env)
    requires Setting(settings.model) == ""
    ensures Truthy(env.defaultModel) ==> ModelSource(settings, env) == env.defaultModel.value
    ensures !Truthy(env.defaultModel) ==> ModelSource(settings, env) == DefaultModel
  {
    SourcesAreFirstTruthy(settings, env);
    var models := ModelCandidates(settings, env);
    if Truthy(env.defaultModel) {
      FirstTruthyAt(models, DefaultModel, 1);
    } else {
      FirstTruthyNone(models, DefaultModel);
    }
  }

  lemma ModelFromEnvironment(settings: Settings, env: Env)
    requires Setting(settings.model) == ""
    ensures Truthy(env.defaultModel) ==> GetConfig(settings, env).model == Trim(env.defaultModel.value)
    ensures !Truthy(env.defaultModel) ==> GetConfig(settings, env).model == DefaultModel
  {
    ModelSourceFromEnvironment(settings, env);
    DefaultModelTrimmed();
  }

  lemma DefaultModelTrimmed()
    ensures Trim(DefaultModel) == DefaultModel
  {
    assert !IsSpace(DefaultModel[0]) && !IsSpace(DefaultModel[|DefaultModel| - 1]);
    TrimKeepsTrimmed(DefaultModel);
  }

  /** `autoOpen` is on unless the setting turns it off. */
  lemma AutoOpenDefault(settings: Settings, env: Env)
    ensures GetConfig(settings, env).autoOpen <==> settings.autoOpen != Some(false)
  {
  }

  /** `validateConfig()` lets generation go ahead exactly when the key is not empty. */
  predicate Configured(c: Config) {
    c.groqApiKey != ""
  }

  /** Generation goes ahead exactly when the first non-empty key source holds more
      than blanks. */
  lemma ConfiguredIff(settings: Settings, env: Env)
    ensures Configured(GetConfig(settings, env)) <==> !AllSpace(FirstTruthy(KeyCandidates(settings, env), ""))
  {
    SourcesAreFirstTruthy(settings, env);
    TrimEmpty(KeySource(settings, env));
  }
}
