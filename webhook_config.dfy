/**
 * The webhook configuration hook (src/hooks/useWebhookConfig.ts): the two
 * webhook URLs, kept as the JSON text of a two-field object under the
 * `webhookConfig` key of the browser store, and the hook's `config` and
 * `isLoaded` state as loading, saving and resetting update them.
 */
module WebhookConfig {
  import opened Wrappers
  import opened Json
  import opened Storage

  datatype Config = Config(chatWebhookUrl: string, csvUploadWebhookUrl: string)

  /** `DEFAULT_CONFIG`: both URLs empty. */
  const DefaultConfig: Config := Config("", "")

  const ConfigKey: string := "webhookConfig"

  /** The text before the first URL: `{"chatWebhookUrl":`. */
  const FirstField: string := "{\"chatWebhookUrl\":"
  /** The text between the URLs: `,"csvUploadWebhookUrl":`. */
  const SecondField: string := ",\"csvUploadWebhookUrl\":"
  const CloseBrace: string := "}"

  /** `JSON.stringify(config)`: the two fields in declaration order, no spaces. */
  function Serialize(c: Config): string {
    FirstField + StringLiteral(c.chatWebhookUrl) + SecondField + StringLiteral(c.csvUploadWebhookUrl) + CloseBrace
  }

  /** `s` with `prefix` taken off its front, if it starts with it. */
  function After(s: string, prefix: string): (r: Option<string>)
    ensures r.Some? <==> |prefix| <= |s| && s[..|prefix|] == prefix
    ensures r.Some? ==> s == prefix + r.value
  {
    if |prefix| <= |s| && s[..|prefix|] == prefix then Some(s[|prefix|..]) else None
  }

  /**
   * `JSON.parse` of the stored text, for the texts that describe a
   * configuration written as `Serialize` writes it (the two fields in that
   * order, inside the URLs the short escapes and the `\u` escapes outside the
   * surrogate range). Any other text is refused.
   */
  function Parse(s: string): Option<Config> {
    match After(s, FirstField)
    case None => None
    case Some(s1) =>
      match ReadString(s1)
      case None => None
      case Some((chat, s2)) =>
        match After(s2, SecondField)
        case None => None
        case Some(s3) =>
          match ReadString(s3)
          case None => None
          case Some((csv, s4)) => if s4 == CloseBrace then Some(Config(chat, csv)) else None
  }

  /** Reading back a written configuration gives it: `JSON.parse(JSON.stringify(c))` is `c`. */
  lemma ParseSerialize(c: Config)
    ensures Parse(Serialize(c)) == Some(c)
  {
    var a, b := StringLiteral(c.chatWebhookUrl), StringLiteral(c.csvUploadWebhookUrl);
    var s3 := b + CloseBrace;
    var s2 := SecondField + s3;
    var s1 := a + s2;
    assert Serialize(c) == FirstField + s1;
    AfterPrefix(FirstField, s1);
    ReadStringLiteral(c.chatWebhookUrl, s2);
    AfterPrefix(SecondField, s3);
    ReadStringLiteral(c.csvUploadWebhookUrl, CloseBrace);
  }

  lemma AfterPrefix(prefix: string, rest: string)
    ensures After(prefix + rest, prefix) == Some(rest)
  {
    assert (prefix + rest)[..|prefix|] == prefix;
  }

  /** Different configurations are written as different texts. */
  lemma SerializeInjective(c: Config, d: Config)
    requires Serialize(c) == Serialize(d)
    ensures c == d
  {
    ParseSerialize(c);
    ParseSerialize(d);
  }

  /** An empty stored text parses to nothing, so loading it keeps the configuration, as the `if (savedConfig)` guard does. */
  lemma ParseRefusesEmpty()
    ensures Parse("") == None
  {
  }

  class WebhookConfigHook {
    var config: Config
    var isLoaded: bool
    /** The browser store the hook shares with the rest of the application. */
    const store: LocalStorage

    /** `useState(DEFAULT_CONFIG)` and `useState(false)`. */
    constructor (store: LocalStorage)
      ensures this.store == store
      ensures config == DefaultConfig && !isLoaded
    {
      this.store := store;
      config := DefaultConfig;
      isLoaded := false;
    }

    /**
     * `loadConfig`: a stored text that parses becomes the configuration; a
     * missing, empty or unparseable one leaves the configuration as it is.
     * Either way the hook is then loaded.
     */
    method LoadConfig()
      modifies this
      ensures isLoaded
      ensures config == match store.GetItem(ConfigKey)
        case Some(text) => Parse(text).GetOr(old(config))
        case None => old(config)
    {
      var saved := store.GetItem(ConfigKey);
      if saved.Some? && saved.value != "" {
        var parsed := Parse(saved.value);
        if parsed.Some? {
          config := parsed.value;
        }
      }
      isLoaded := true;
    }

    /**
     * `saveConfig`: the written text is stored first, and only then does the
     * configuration change. A refused write is caught: `false` is returned
     * and both the store and the configuration stay as they were.
     */
    method SaveConfig(newConfig: Config, accepted: bool) returns (ok: bool)
      modifies this, store
      ensures ok == accepted
      ensures isLoaded == old(isLoaded)
      ensures accepted ==> store.items == old(store.items)[ConfigKey := Serialize(newConfig)] && config == newConfig
      ensures !accepted ==> store.items == old(store.items) && config == old(config)
    {
      ok := store.SetItem(ConfigKey, Serialize(newConfig), accepted);
      if ok {
        config := newConfig;
      }
    }

    /** `resetConfig`: the key is removed, the configuration is the default, and `true` is returned. */
    method ResetConfig() returns (ok: bool)
      modifies this, store
      ensures ok
      ensures isLoaded == old(isLoaded)
      ensures store.items == old(store.items) - {ConfigKey} && config == DefaultConfig
    {
      store.RemoveItem(ConfigKey);
      config := DefaultConfig;
      ok := true;
    }
  }

  /** A fresh hook over an empty store loads the default configuration. */
  method LoadFromEmptyStore(store: LocalStorage) returns (hook: WebhookConfigHook)
    requires store.items == map[]
    ensures hook.isLoaded && hook.config == DefaultConfig
  {
    hook := new WebhookConfigHook(store);
    hook.LoadConfig();
  }

  /** A configuration saved by one hook is the configuration a hook mounted later loads. */
  method SaveThenLoad(hook: WebhookConfigHook, c: Config) returns (later: WebhookConfigHook)
    modifies hook, hook.store
    ensures later.store == hook.store
    ensures later.isLoaded && later.config == c
  {
    var ok := hook.SaveConfig(c, true);
    later := new WebhookConfigHook(hook.store);
    ParseSerialize(c);
    later.LoadConfig();
  }

  /** After a reset a hook mounted later loads the default configuration. */
  method ResetThenLoad(hook: WebhookConfigHook) returns (later: WebhookConfigHook)
    modifies hook, hook.store
    ensures later.isLoaded && later.config == DefaultConfig
  {
    var ok := hook.ResetConfig();
    later := new WebhookConfigHook(hook.store);
    later.LoadConfig();
  }
}
