/**
 * `AppAPI` (app.py), the desktop window's bridge to the configuration. It
 * keeps its own copy of the configuration, edits the rule table in that copy
 * and writes the whole copy back to the file after every change. The MITM
 * proxy that `create_app` starts beside it loaded the file separately and
 * never reloads it.
 */
module DesktopApi {
  import opened Base
  import opened OrderedDict
  import opened ProxyConfig
  import opened MitmProxy

  /** What a call hands back to the frontend; `Raised` is an exception escaping the call. */
  datatype Reply = Success | Failure(message: string) | Raised

  class AppApi {
    /** The file at `config_path`. */
    const store: ConfigFile
    /** `self.proxy_config`. */
    var proxyConfig: Config

    ghost predicate Valid()
      reads this, store
    {
      ValidConfig(proxyConfig) && ValidFile(store.content)
    }

    constructor (store: ConfigFile, loaded: Config)
      requires ValidConfig(loaded) && ValidFile(store.content)
      ensures this.store == store && proxyConfig == loaded
      ensures Valid()
    {
      this.store := store;
      proxyConfig := loaded;
    }

    /**
     * `_save_config`: write `c`; only a complete write makes `c` the
     * in-memory configuration.
     */
    method SaveConfig(c: Config, w: WriteOutcome) returns (saved: bool)
      requires Valid() && ValidConfig(c)
      modifies this, store
      ensures Valid()
      ensures saved <==> w == Written
      ensures store.content == AfterWrite(old(store.content), c, w)
      ensures proxyConfig == (if saved then c else old(proxyConfig))
      ensures saved ==> store.content == Json(proxyConfig)
    {
      store.content := AfterWrite(store.content, c, w);
      saved := w == Written;
      if saved {
        proxyConfig := c;
      }
    }

    /**
     * `_load_config` (and `get_config`, which returns it): a readable file
     * replaces the in-memory configuration; a missing or unreadable one is
     * logged and the old configuration is returned.
     */
    method LoadConfig() returns (c: Config)
      requires Valid()
      modifies this
      ensures Valid()
      ensures store.content.Json? ==> c == store.content.config && proxyConfig == c
      ensures !store.content.Json? ==> c == old(proxyConfig) && proxyConfig == old(proxyConfig)
    {
      match store.content {
        case Json(loaded) =>
          proxyConfig := loaded;
        case Missing =>
        case Unreadable =>
      }
      c := proxyConfig;
    }

    /**
     * `add_rule`: the rule enters the in-memory table before the save, so it
     * stays there even when the save fails.
     */
    method AddRule(source: Option<string>, target: Option<string>, w: WriteOutcome) returns (r: Reply)
      requires Valid()
      modifies this, store
      ensures Valid()
      ensures Blank(source) || Blank(target) ==>
        r == Failure("Missing source or target") && proxyConfig == old(proxyConfig) && store.content == old(store.content)
      ensures !Blank(source) && !Blank(target) && old(proxyConfig).proxyRules.None? ==>
        r == Raised && proxyConfig == old(proxyConfig) && store.content == old(store.content)
      ensures !Blank(source) && !Blank(target) && old(proxyConfig).proxyRules.Some? ==>
        var c := old(proxyConfig).(proxyRules := Some(Set(old(proxyConfig).proxyRules.value, source.value, target.value)));
        proxyConfig == c && store.content == AfterWrite(old(store.content), c, w)
        && r == (if w == Written then Success else Failure("Failed to save config"))
      ensures r == Success ==>
        Get(RulesOf(proxyConfig), source.value) == Some(target.value) && store.content == Json(proxyConfig)
      ensures r == Success ==>
        forall k :: k != source.value ==> Get(RulesOf(proxyConfig), k) == Get(RulesOf(old(proxyConfig)), k)
    {
      if Blank(source) || Blank(target) {
        return Failure("Missing source or target");
      }
      if proxyConfig.proxyRules.None? {
        return Raised;
      }
      var rules := proxyConfig.proxyRules.value;
      SetSpec(rules, source.value, target.value);
      proxyConfig := proxyConfig.(proxyRules := Some(Set(rules, source.value, target.value)));
      var saved := SaveConfig(proxyConfig, w);
      r := if saved then Success else Failure("Failed to save config");
    }

    /**
     * `delete_rule`: a failed save after the deletion reports "Rule not
     * found", although the rule is gone from memory.
     */
    method DeleteRule(source: string, w: WriteOutcome) returns (r: Reply)
      requires Valid()
      modifies this, store
      ensures Valid()
      ensures !HasKey(RulesOf(old(proxyConfig)), source) ==>
        r == Failure("Rule not found") && proxyConfig == old(proxyConfig) && store.content == old(store.content)
      ensures HasKey(RulesOf(old(proxyConfig)), source) ==>
        var c := old(proxyConfig).(proxyRules := Some(Delete(RulesOf(old(proxyConfig)), source)));
        proxyConfig == c && store.content == AfterWrite(old(store.content), c, w)
        && r == (if w == Written then Success else Failure("Rule not found"))
      ensures r != Raised
      ensures r == Success ==> Get(RulesOf(proxyConfig), source) == None && store.content == Json(proxyConfig)
      ensures r == Success ==> |RulesOf(proxyConfig)| == |RulesOf(old(proxyConfig))| - 1
    {
      var rules := RulesOf(proxyConfig);
      if !HasKey(rules, source) {
        return Failure("Rule not found");
      }
      DeleteSpec(rules, source);
      proxyConfig := proxyConfig.(proxyRules := Some(Delete(rules, source)));
      var saved := SaveConfig(proxyConfig, w);
      r := if saved then Success else Failure("Rule not found");
    }

    /** `get_rules`: the in-memory table, or `{}` when the configuration has none. */
    function GetRules(): (r: Rules)
      reads this
      ensures proxyConfig.proxyRules.None? ==> r == []
      ensures ValidConfig(proxyConfig) ==> OrderedDict.Valid(r)
      ensures forall k :: Get(r, k).Some? <==> proxyConfig.proxyRules.Some? && HasKey(proxyConfig.proxyRules.value, k)
    {
      RulesOf(proxyConfig)
    }
  }

  /**
   * `create_app`: the API and the MITM proxy each load the file on their own.
   * An unreadable file makes `MITMProxyServer().load_config()` raise, so
   * nothing starts.
   */
  method CreateApp(store: ConfigFile) returns (api: AppApi?, server: MitmProxyServer?)
    requires ValidFile(store.content)
    ensures api == null <==> store.content == Unreadable
    ensures server == null <==> store.content == Unreadable
    ensures api != null && server != null ==>
      fresh(api) && fresh(server) && api.store == store && api.Valid()
      && api.proxyConfig == server.config == LoadConfig(store.content).value
  {
    var loaded := LoadConfig(store.content);
    if loaded.None? {
      return null, null;
    }
    server := new MitmProxyServer(loaded.value);
    api := new AppApi(store, loaded.value);
  }

  /**
   * A rule added through the window reaches the file, while the running MITM
   * proxy keeps resolving with the rules it started with.
   */
  method AddRuleWhileRunning(store: ConfigFile, source: string, target: string, w: WriteOutcome)
    returns (r: Reply, proxyRules: Rules, fileRules: Option<Rules>)
    requires ValidFile(store.content) && store.content.Json? && store.content.config.proxyRules.Some?
    requires source != [] && target != []
    modifies store
    ensures r == (if w == Written then Success else Failure("Failed to save config"))
    ensures proxyRules == RulesOf(old(store.content).config)
    ensures w == Written ==> fileRules.Some? && Get(fileRules.value, source) == Some(target)
    ensures w == Written && Get(proxyRules, source) != Some(target) ==> proxyRules != fileRules.value
  {
    var api, server := CreateApp(store);
    r := api.AddRule(Some(source), Some(target), w);
    proxyRules := RulesOf(server.config);
    fileRules := if store.content.Json? then Some(RulesOf(store.content.config)) else None;
  }
}
