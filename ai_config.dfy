/**
 * The resolution of the language-model endpoint settings. The three string fields
 * take the extension setting, then the environment, then a built-in default; the
 * token limit and the temperature take the setting, then a default, and read no
 * environment variable. An absent value and an empty string, or a zero number,
 * fall through, as JavaScript's `||` does.
 */
module AiConfig {
  import opened Common

  /** The `fileHistoryVSX.openai.*` settings; `None` is a setting left undefined. */
  datatype OpenAiSettings = OpenAiSettings(
    apiKey: Option<string>,
    baseUrl: Option<string>,
    model: Option<string>,
    maxTokens: Option<int>,
    temperature: Option<real>)

  /** The process environment. */
  type Environment = map<string, string>

  datatype ApiConfig = ApiConfig(
    apiKey: string,
    baseUrl: string,
    model: string,
    maxTokens: int,
    temperature: real)

  const DefaultBaseUrl := "https://api.openai.com/v1"
  const DefaultModel := "gpt-3.5-turbo"
  const DefaultMaxTokens := 1000
  const DefaultTemperature := 0.7

  function EnvVar(env: Environment, name: string): Option<string> {
    if name in env then Some(env[name]) else None
  }

  /** A string JavaScript's `||` keeps: defined and not empty. */
  predicate Truthy(x: Option<string>) {
    x.Some? && x.value != ""
  }

  /** `x || y` for an optional integer: zero falls through. */
  function OrInt(x: Option<int>, y: int): int {
    if x.Some? && x.value != 0 then x.value else y
  }

  /** `x || y` for an optional real: zero falls through. */
  function OrReal(x: Option<real>, y: real): real {
    if x.Some? && x.value != 0.0 then x.value else y
  }

  /**
   * `v` is what a chain `c0 || c1 || ... || fallback` evaluates to: the first truthy
   * candidate, or the fallback when none is.
   */
  ghost predicate FirstTruthy(cands: seq<Option<string>>, fallback: string, v: string) {
    || (exists i :: 0 <= i < |cands| && Truthy(cands[i]) && cands[i].value == v
          && forall j :: 0 <= j < i ==> !Truthy(cands[j]))
    || ((forall j :: 0 <= j < |cands| ==> !Truthy(cands[j])) && v == fallback)
  }

  /** `c0 || c1 || ... || fallback`, evaluated from the left. */
  function OrChain(cands: seq<Option<string>>, fallback: string): (v: string)
    ensures FirstTruthy(cands, fallback, v)
  {
    if cands == [] then fallback
    else
      var rest := OrChain(cands[1..], fallback);
      assert FirstTruthy(cands[1..], fallback, rest);
      if Truthy(cands[0]) then
        assert Truthy(cands[0]);  // the witness for the first disjunct of FirstTruthy
        cands[0].value
      else
        FirstTruthyShift(cands, fallback, rest);
        rest
  }

  /** A falsy first candidate passes the chain on to the rest. */
  lemma FirstTruthyShift(cands: seq<Option<string>>, fallback: string, v: string)
    requires cands != [] && !Truthy(cands[0])
    requires FirstTruthy(cands[1..], fallback, v)
    ensures FirstTruthy(cands, fallback, v)
  {
    var tail := cands[1..];
    if exists i :: 0 <= i < |tail| && Truthy(tail[i]) && tail[i].value == v
         && forall j :: 0 <= j < i ==> !Truthy(tail[j]) {
      var i :| 0 <= i < |tail| && Truthy(tail[i]) && tail[i].value == v
         && forall j :: 0 <= j < i ==> !Truthy(tail[j]);
      assert Truthy(cands[i + 1]) && cands[i + 1].value == v
         && forall j :: 0 <= j < i + 1 ==> !Truthy(cands[j]);
    } else {
      assert forall j :: 0 <= j < |cands| ==> !Truthy(cands[j]) by {
        forall j | 0 <= j < |cands| ensures !Truthy(cands[j]) {
          if j > 0 { assert cands[j] == tail[j - 1]; }
        }
      }
    }
  }

  function ApiKeyCandidates(settings: OpenAiSettings, env: Environment): seq<Option<string>> {
    [settings.apiKey, EnvVar(env, "OPENAI_API_KEY"), EnvVar(env, "FILEHISTORY_API_KEY")]
  }

  function BaseUrlCandidates(settings: OpenAiSettings, env: Environment): seq<Option<string>> {
    [settings.baseUrl, EnvVar(env, "OPENAI_BASE_URL")]
  }

  function ModelCandidates(settings: OpenAiSettings, env: Environment): seq<Option<string>> {
    [settings.model, EnvVar(env, "OPENAI_MODEL")]
  }

  /** The endpoint configuration for the given settings and environment. */
  function GetApiConfig(settings: OpenAiSettings, env: Environment): (r: ApiConfig)
    ensures FirstTruthy(ApiKeyCandidates(settings, env), "", r.apiKey)
    ensures FirstTruthy(BaseUrlCandidates(settings, env), DefaultBaseUrl, r.baseUrl)
    ensures FirstTruthy(ModelCandidates(settings, env), DefaultModel, r.model)
    ensures settings.maxTokens.Some? && settings.maxTokens.value != 0 ==> r.maxTokens == settings.maxTokens.value
    ensures settings.maxTokens.None? || settings.maxTokens.value == 0 ==> r.maxTokens == DefaultMaxTokens
    ensures settings.temperature.Some? && settings.temperature.value != 0.0 ==> r.temperature == settings.temperature.value
    ensures settings.temperature.None? || settings.temperature.value == 0.0 ==> r.temperature == DefaultTemperature
  {
    ApiConfig(
      OrChain(ApiKeyCandidates(settings, env), ""),
      OrChain(BaseUrlCandidates(settings, env), DefaultBaseUrl),
      OrChain(ModelCandidates(settings, env), DefaultModel),
      OrInt(settings.maxTokens, DefaultMaxTokens),
      OrReal(settings.temperature, DefaultTemperature))
  }

  /** A `||` chain has exactly one value: the contract of `GetApiConfig` pins each string field down. */
  lemma FirstTruthyUnique(cands: seq<Option<string>>, fallback: string, v: string, w: string)
    requires FirstTruthy(cands, fallback, v) && FirstTruthy(cands, fallback, w)
    ensures v == w
  {
    if exists i :: 0 <= i < |cands| && Truthy(cands[i]) && cands[i].value == v
         && forall j :: 0 <= j < i ==> !Truthy(cands[j]) {
      var i :| 0 <= i < |cands| && Truthy(cands[i]) && cands[i].value == v
         && forall j :: 0 <= j < i ==> !Truthy(cands[j]);
      var k :| 0 <= k < |cands| && Truthy(cands[k]) && cands[k].value == w
         && forall j :: 0 <= j < k ==> !Truthy(cands[j]);
      assert !(i < k) && !(k < i);
    }
  }

  /** A non-empty setting wins over the environment and the defaults. */
  lemma SettingsTakePrecedence(settings: OpenAiSettings, env: Environment)
    ensures Truthy(settings.apiKey) ==> GetApiConfig(settings, env).apiKey == settings.apiKey.value
    ensures Truthy(settings.baseUrl) ==> GetApiConfig(settings, env).baseUrl == settings.baseUrl.value
    ensures Truthy(settings.model) ==> GetApiConfig(settings, env).model == settings.model.value
  {
    var r := GetApiConfig(settings, env);
    if Truthy(settings.apiKey) {
      FirstTruthyUnique(ApiKeyCandidates(settings, env), "", r.apiKey, settings.apiKey.value);
    }
    if Truthy(settings.baseUrl) {
      FirstTruthyUnique(BaseUrlCandidates(settings, env), DefaultBaseUrl, r.baseUrl, settings.baseUrl.value);
    }
    if Truthy(settings.model) {
      FirstTruthyUnique(ModelCandidates(settings, env), DefaultModel, r.model, settings.model.value);
    }
  }

  /**
   * The endpoint and model are never empty and the token limit never zero; the API
   * key is empty exactly when neither the setting nor either variable supplies one.
   */
  lemma ApiConfigDefaults(settings: OpenAiSettings, env: Environment)
    ensures GetApiConfig(settings, env).baseUrl != ""
    ensures GetApiConfig(settings, env).model != ""
    ensures GetApiConfig(settings, env).maxTokens != 0
    ensures GetApiConfig(settings, env).apiKey == "" <==>
      && !Truthy(settings.apiKey)
      && !Truthy(EnvVar(env, "OPENAI_API_KEY"))
      && !Truthy(EnvVar(env, "FILEHISTORY_API_KEY"))
  {
    var cands := ApiKeyCandidates(settings, env);
    if !Truthy(cands[0]) && !Truthy(cands[1]) && !Truthy(cands[2]) {
      assert forall j :: 0 <= j < |cands| ==> !Truthy(cands[j]);
      FirstTruthyUnique(cands, "", GetApiConfig(settings, env).apiKey, "");
    }
  }

  /** A temperature configured as zero is indistinguishable from no setting: it becomes 0.7. */
  lemma ZeroTemperatureReplaced(settings: OpenAiSettings, env: Environment)
    requires settings.temperature == Some(0.0)
    ensures GetApiConfig(settings, env).temperature == DefaultTemperature
    ensures GetApiConfig(settings, env) == GetApiConfig(settings.(temperature := None), env)
  {
  }
}
