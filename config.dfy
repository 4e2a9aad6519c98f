/**
 * `validate_config`: the check the relay runs on its JSON configuration
 * before it starts listening.
 *
 * A configuration is the object `json.load` returns, a map from key to JSON
 * value. Each required key must be present, truthy in Python's sense, and
 * different from the placeholder `your-<key, with dashes>-here`; the
 * unacceptable keys are reported in the order they are checked.
 */
module ServiceConfig {
  import opened Text

  datatype Json =
    | JNull
    | JBool(b: bool)
    | JNumber(n: real)
    | JString(s: string)
    | JArray(items: seq<Json>)
    | JObject(members: map<string, Json>)

  type Config = map<string, Json>

  /** Python's `bool(v)` for a value `json.load` produces. */
  predicate Truthy(v: Json)
  {
    match v
    case JNull => false
    case JBool(b) => b
    case JNumber(n) => n != 0.0
    case JString(s) => s != []
    case JArray(items) => items != []
    case JObject(members) => members != map[]
  }

  const RequiredKeys: seq<string> := ["udp_port", "wavelog_url", "api_key", "station_profile_id"]

  /** `key.replace('_', '-')`. */
  function Dashed(key: string): (r: string)
    ensures |r| == |key|
    ensures forall i :: 0 <= i < |key| ==> r[i] == (if key[i] == '_' then '-' else key[i])
  {
    seq(|key|, i requires 0 <= i < |key| => if key[i] == '_' then '-' else key[i])
  }

  /** `f"your-{key.replace('_', '-')}-here"`. */
  function Placeholder(key: string): string
  {
    "your-" + Dashed(key) + "-here"
  }

  /** The per-key test, negated in the source: present, truthy, and not the placeholder. */
  predicate Acceptable(config: Config, key: string)
  {
    key in config && Truthy(config[key]) && config[key] != JString(Placeholder(key))
  }

  /** The keys of `keys` that are not acceptable, in their order. */
  function MissingKeys(config: Config, keys: seq<string>): seq<string>
  {
    if keys == [] then []
    else
      var prev := MissingKeys(config, keys[..|keys| - 1]);
      var key := keys[|keys| - 1];
      if Acceptable(config, key) then prev else prev + [key]
  }

  /**
   * The loop `for key in required_keys`, appending each unacceptable key
   * to `missing_keys`; the configuration is valid when none was appended.
   * The reported list is returned beside the verdict.
   */
  method ValidateConfig(config: Config) returns (valid: bool, missing: seq<string>)
    ensures missing == MissingKeys(config, RequiredKeys)
    ensures valid <==> missing == []
  {
    missing := [];
    for i := 0 to |RequiredKeys|
      invariant missing == MissingKeys(config, RequiredKeys[..i])
    {
      var key := RequiredKeys[i];
      assert RequiredKeys[..i + 1][..i] == RequiredKeys[..i];
      if !(key in config) || !Truthy(config[key]) || config[key] == JString(Placeholder(key)) {
        missing := missing + [key];
      }
    }
    assert RequiredKeys[..|RequiredKeys|] == RequiredKeys;
    valid := missing == [];
  }

  /** A key is reported exactly when it is one of the checked keys and is not acceptable. */
  lemma {:induction false} MissingKeysMembers(config: Config, keys: seq<string>, key: string)
    ensures key in MissingKeys(config, keys) <==> key in keys && !Acceptable(config, key)
  {
    if keys != [] {
      var init := keys[..|keys| - 1];
      MissingKeysMembers(config, init, key);
      assert keys == init + [keys[|keys| - 1]];
    }
  }

  /** The reported keys keep the order in which they were checked. */
  lemma {:induction false} MissingKeysOrder(config: Config, keys: seq<string>)
    ensures IsSubsequence(MissingKeys(config, keys), keys)
  {
    if keys != [] {
      var init := keys[..|keys| - 1];
      MissingKeysOrder(config, init);
      SubsequenceOfInit(MissingKeys(config, init), keys);
    }
  }

  /** A configuration is valid exactly when every required key is acceptable. */
  predicate Valid(config: Config)
  {
    MissingKeys(config, RequiredKeys) == []
  }

  lemma ValidIff(config: Config)
    ensures Valid(config) <==> forall key :: key in RequiredKeys ==> Acceptable(config, key)
  {
    forall key ensures key in MissingKeys(config, RequiredKeys) <==> key in RequiredKeys && !Acceptable(config, key) {
      MissingKeysMembers(config, RequiredKeys, key);
    }
    if !Valid(config) {
      var missing := MissingKeys(config, RequiredKeys);
      assert missing[0] in missing;
    }
  }

  /** `listen_address` is never checked: changing it, or leaving it out, does not change the verdict. */
  lemma ListenAddressIgnored(config: Config, v: Json)
    ensures Valid(config[ "listen_address" := v]) == Valid(config)
    ensures Valid(config - {"listen_address"}) == Valid(config)
  {
    ValidIff(config);
    ValidIff(config[ "listen_address" := v]);
    ValidIff(config - {"listen_address"});
    assert forall key :: key in RequiredKeys ==> key != "listen_address";
  }

  // ------------------------------------------------------------ the template

  /** The file `create_config_template` writes when there is no configuration. */
  const TemplateConfig: Config := map[
    "udp_port" := JNumber(2333.0),
    "wavelog_url" := JString("https://your-wavelog-url.com"),
    "api_key" := JString("your-api-key-here"),
    "station_profile_id" := JString("1"),
    "listen_address" := JString("0.0.0.0")]

  /** The template itself is turned down: its `api_key` is the placeholder. */
  lemma TemplateRejected()
    ensures !Valid(TemplateConfig)
  {
    assert Dashed("api_key") == "api-key";
    assert TemplateConfig["api_key"] == JString(Placeholder("api_key"));
    MissingKeysMembers(TemplateConfig, RequiredKeys, "api_key");
    assert "api_key" in RequiredKeys;
  }

  /**
   * As written, filling in only the API key is enough: the template's
   * server address `https://your-wavelog-url.com` is not of the form
   * `your-wavelog-url-here`, so it passes although it is a template value.
   */
  lemma TemplateUrlAccepted(apiKey: string)
    requires apiKey != [] && apiKey != Placeholder("api_key")
    ensures var config := TemplateConfig["api_key" := JString(apiKey)];
      Valid(config) && config["wavelog_url"] == TemplateConfig["wavelog_url"]
  {
    var config := TemplateConfig["api_key" := JString(apiKey)];
    assert Dashed("wavelog_url") == "wavelog-url";
    assert Placeholder("wavelog_url") != "https://your-wavelog-url.com" by {
      assert Placeholder("wavelog_url")[0] == 'y';
    }
    ValidIff(config);
  }

  /** The values the template writes for the settings the user has to replace. */
  const TemplateDefaults: map<string, Json> := map[
    "wavelog_url" := TemplateConfig["wavelog_url"],
    "api_key" := TemplateConfig["api_key"]]

  /** The intended check: as before, and no setting the user must replace still holds its template value. */
  predicate ValidStrict(config: Config)
  {
    Valid(config) && forall key :: key in TemplateDefaults && key in config ==> config[key] != TemplateDefaults[key]
  }

  /**
   * The stricter check turns down every configuration that keeps the
   * template's server address or API key, and otherwise agrees with the
   * check as written.
   */
  lemma ValidStrictSpec(config: Config)
    ensures ("wavelog_url" in config && config["wavelog_url"] == TemplateConfig["wavelog_url"]) ==> !ValidStrict(config)
    ensures ("api_key" in config && config["api_key"] == TemplateConfig["api_key"]) ==> !ValidStrict(config)
    ensures (&& ("wavelog_url" !in config || config["wavelog_url"] != TemplateConfig["wavelog_url"])
             && ("api_key" !in config || config["api_key"] != TemplateConfig["api_key"])) ==>
            ValidStrict(config) == Valid(config)
  {
    assert TemplateDefaults.Keys == {"wavelog_url", "api_key"};
  }

  /** Filling in only the API key no longer passes the stricter check. */
  lemma TemplateUrlRejectedStrict(apiKey: string)
    ensures !ValidStrict(TemplateConfig["api_key" := JString(apiKey)])
  {
    ValidStrictSpec(TemplateConfig["api_key" := JString(apiKey)]);
  }
}
