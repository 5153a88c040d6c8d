/**
 * The Flask reverse proxy of proxy_server.py: its own copy of the
 * configuration and the rule routes that edit and save it, the exact-match
 * host lookup, the upstream URL built for each proxied request, and the
 * header rewriting on both sides of the upstream call.
 */
module FlaskProxy {
  import opened Base
  import opened PyStr
  import opened OrderedDict
  import opened ProxyConfig
  import opened DomainRules
  import opened Url

  /** The CORS header name as `proxy_request` sets it. */
  const AllowOrigin: string := "Access-Control-Allow-Origin"

  /** The same name lowercased. */
  const AllowOriginLower: string := "access-control-allow-origin"

  /** The lowercased names the response filter drops. */
  const EncodingHeaders: seq<string> := ["content-encoding", "transfer-encoding"]

  lemma LowerAllowOrigin()
    ensures AsciiLower(AllowOrigin) == AllowOriginLower
    ensures AsciiLower(AllowOriginLower) == AllowOriginLower
  {
  }

  /** The entries of `h` whose lowercased name is not in `drop`, in their order. */
  function Without(h: Dict<string, string>, drop: seq<string>): (r: Dict<string, string>)
    ensures |r| <= |h|
    ensures forall i :: 0 <= i < |r| ==> AsciiLower(r[i].0) !in drop
  {
    if h == [] then []
    else if AsciiLower(h[0].0) in drop then Without(h[1..], drop)
    else [h[0]] + Without(h[1..], drop)
  }

  /** Filtering keeps every other header with its value and loses only the dropped names. */
  lemma {:induction false} WithoutSpec(h: Dict<string, string>, drop: seq<string>)
    requires Valid(h)
    ensures Valid(Without(h, drop))
    ensures forall k :: Get(Without(h, drop), k) == (if AsciiLower(k) in drop then None else Get(h, k))
  {
    if h != [] {
      ValidTail(h);
      WithoutSpec(h[1..], drop);
      var rest := Without(h[1..], drop);
      if AsciiLower(h[0].0) !in drop {
        var r := [h[0]] + rest;
        assert r[1..] == rest;
        assert Get(rest, h[0].0) == None;
        forall i, j | 0 <= i < j < |r| ensures r[i].0 != r[j].0 {
          assert r[j] == rest[j - 1];
          if i > 0 {
            assert r[i] == rest[i - 1];
          }
        }
      }
    }
  }

  /**
   * The response header dict as written: every upstream header except the
   * two encoding headers, then `'Access-Control-Allow-Origin': '*'` stored
   * under that exact spelling.
   */
  function FilterHeadersAsWritten(h: Dict<string, string>): (r: Dict<string, string>)
    requires Valid(h)
    ensures Valid(r)
    ensures Get(r, AllowOrigin) == Some("*")
    ensures forall k :: k != AllowOrigin ==> Get(r, k) == (if AsciiLower(k) in EncodingHeaders then None else Get(h, k))
  {
    WithoutSpec(h, EncodingHeaders);
    SetSpec(Without(h, EncodingHeaders), AllowOrigin, "*");
    Set(Without(h, EncodingHeaders), AllowOrigin, "*")
  }

  /**
   * An upstream CORS header spelled in lower case is a different dict key, so
   * the response carries two `Access-Control-Allow-Origin` headers: the
   * upstream's and `*`.
   */
  lemma AllowOriginTwice(v: string)
    ensures var r := FilterHeadersAsWritten([(AllowOriginLower, v)]);
      r == [(AllowOriginLower, v), (AllowOrigin, "*")] && AsciiLower(r[0].0) == AsciiLower(r[1].0)
  {
    LowerAllowOrigin();
    var h := [(AllowOriginLower, v)];
    assert AllowOriginLower !in EncodingHeaders;
    assert Without(h[1..], EncodingHeaders) == [];
    assert Without(h, EncodingHeaders) == h;
    assert !HasKey(h, AllowOrigin);
  }

  /**
   * The response headers with one `Access-Control-Allow-Origin: *`: every
   * upstream spelling of that header is dropped along with the encoding
   * headers before `*` is added.
   */
  function FilterHeaders(h: Dict<string, string>): (r: Dict<string, string>)
    requires Valid(h)
    ensures Valid(r) && |r| > 0
    ensures r[|r| - 1] == (AllowOrigin, "*")
    ensures forall i :: 0 <= i < |r| - 1 ==> AsciiLower(r[i].0) != AllowOriginLower
    ensures forall k :: AsciiLower(k) != AllowOriginLower ==>
      Get(r, k) == (if AsciiLower(k) in EncodingHeaders then None else Get(h, k))
  {
    var kept := Without(h, EncodingHeaders + [AllowOriginLower]);
    KeptHeaders(h);
    SetKeysNew(kept, AllowOrigin, "*");
    kept + [(AllowOrigin, "*")]
  }

  /** The upstream headers `FilterHeaders` keeps: valid, without any allow-origin spelling, and otherwise as `h`. */
  lemma KeptHeaders(h: Dict<string, string>)
    requires Valid(h)
    ensures var kept := Without(h, EncodingHeaders + [AllowOriginLower]);
      Valid(kept) && !HasKey(kept, AllowOrigin)
      && forall k :: AsciiLower(k) != AllowOriginLower ==>
           Get(kept + [(AllowOrigin, "*")], k) == (if AsciiLower(k) in EncodingHeaders then None else Get(h, k))
  {
    var drop := EncodingHeaders + [AllowOriginLower];
    var kept := Without(h, drop);
    WithoutSpec(h, drop);
    LowerAllowOrigin();
    assert Get(kept, AllowOrigin) == None;
    forall k | AsciiLower(k) != AllowOriginLower
      ensures Get(kept + [(AllowOrigin, "*")], k) == (if AsciiLower(k) in EncodingHeaders then None else Get(h, k))
    {
      assert k != AllowOrigin;
      SetGetOther(kept, AllowOrigin, "*", k);
    }
  }

  /** What `proxy_request` hands to the session. */
  datatype Upstream = Upstream(verb: string, url: string, headers: Dict<string, string>, body: Option<seq<Byte>>)

  /** The request headers without `Host`, and the body unless the method is GET or DELETE. */
  function UpstreamRequest(verb: string, url: string, headers: Dict<string, string>, data: seq<Byte>): (u: Upstream)
    requires Valid(headers)
    ensures u.verb == verb && u.url == url
    ensures u.body.None? <==> verb == "GET" || verb == "DELETE"
    ensures u.body.Some? ==> u.body.value == data
    ensures Valid(u.headers) && Get(u.headers, "Host") == None
    ensures forall k :: k != "Host" ==> Get(u.headers, k) == Get(headers, k)
  {
    DeleteSpec(headers, "Host");
    Upstream(verb, url, Delete(headers, "Host"), if verb == "GET" || verb == "DELETE" then None else Some(data))
  }

  /** `f"https://{target_domain}/{url_path}"`, whatever scheme the request came in on. */
  function BaseUrl(target: string, urlPath: string): string
  {
    "https://" + target + "/" + urlPath
  }

  /** Werkzeug's `request.full_path`: the path, '?', and the query string, even an empty one. */
  function FullPath(path: string, query: string): string
  {
    path + "?" + query
  }

  /** The target URL as written: the base, then '?' and the text between the first and second '?' of `full_path`. */
  function TargetUrlAsWritten(target: string, urlPath: string, fullPath: string): (u: string)
    ensures StartsWith(u, BaseUrl(target, urlPath))
    ensures !Contains(fullPath, "?") ==> u == BaseUrl(target, urlPath)
  {
    var parts := Split(fullPath, "?");
    if |parts| > 1 then
      assert (BaseUrl(target, urlPath) + "?" + parts[1])[..|BaseUrl(target, urlPath)|] == BaseUrl(target, urlPath);
      BaseUrl(target, urlPath) + "?" + parts[1]
    else BaseUrl(target, urlPath)
  }

  /** Splitting `a + "?" + b` at '?' when `a` has none. */
  lemma SplitAtMark(a: string, b: string)
    requires NoChar(a, '?')
    ensures Split(a + "?" + b, "?") == [a] + Split(b, "?")
  {
    var s := a + "?" + b;
    assert s == a + ['?'] + b;
    FindAfterPrefix(a, '?', b);
    SplitAtFirst(s, |a|, "?");
    assert s[..|a|] == a && s[|a| + 1..] == b;
  }

  /** A query with no '?' in it reaches the target URL whole (with a bare '?' when it is empty). */
  lemma QueryForwarded(target: string, urlPath: string, path: string, query: string)
    requires NoChar(path, '?') && NoChar(query, '?')
    ensures TargetUrlAsWritten(target, urlPath, FullPath(path, query)) == BaseUrl(target, urlPath) + "?" + query
  {
    SplitAtMark(path, query);
    NoCharContains(query, '?');
  }

  /** A query holding a '?' is cut at it. */
  lemma QueryCutAtSecondMark(target: string, urlPath: string, path: string, a: string, b: string)
    requires NoChar(path, '?') && NoChar(a, '?')
    ensures TargetUrlAsWritten(target, urlPath, FullPath(path, a + "?" + b)) == BaseUrl(target, urlPath) + "?" + a
  {
    SplitAtMark(path, a + "?" + b);
    SplitAtMark(a, b);
  }

  /** The base URL holds a '?' only if the target or the path does. */
  lemma BaseNoMark(target: string, urlPath: string)
    ensures NoChar(target, '?') && NoChar(urlPath, '?') ==> NoChar(BaseUrl(target, urlPath), '?')
  {
    var base := BaseUrl(target, urlPath);
    if NoChar(target, '?') && NoChar(urlPath, '?') {
      forall j | 0 <= j < |base| ensures base[j] != '?' {
        if j < 8 {
          assert base[j] == "https://"[j];
        } else if j < 8 + |target| {
          assert base[j] == target[j - 8];
        } else if j > 8 + |target| {
          assert base[j] == urlPath[j - 9 - |target|];
        }
      }
    }
  }

  /** After a '?'-free prefix, the text past the first '?' is what was appended. */
  lemma QueryAfterMark(base: string, query: string)
    ensures NoChar(base, '?') ==> Contains(base + "?" + query, "?") && AfterFirst(base + "?" + query, "?") == query
  {
    if NoChar(base, '?') {
      assert base + "?" + query == base + ['?'] + query;
      FindAfterPrefix(base, '?', query);
    }
  }

  /** The target URL carrying the whole query string. */
  function TargetUrl(target: string, urlPath: string, query: string): (u: string)
    ensures StartsWith(u, BaseUrl(target, urlPath))
    ensures NoChar(target, '?') && NoChar(urlPath, '?') ==> Contains(u, "?") && AfterFirst(u, "?") == query
  {
    var base := BaseUrl(target, urlPath);
    BaseNoMark(target, urlPath);
    QueryAfterMark(base, query);
    assert (base + "?" + query)[..|base|] == base;
    base + "?" + query
  }

  /** Wherever the as-written URL is right, the corrected one agrees with it. */
  lemma TargetUrlAgrees(target: string, urlPath: string, path: string, query: string)
    requires NoChar(path, '?') && NoChar(query, '?')
    ensures TargetUrl(target, urlPath, query) == TargetUrlAsWritten(target, urlPath, FullPath(path, query))
  {
    QueryForwarded(target, urlPath, path, query);
  }

  /** What the catch-all route answers before any upstream call. */
  datatype RouteResult = NoRule(host: string, availableRules: seq<string>) | ProxyTo(url: string)

  class ProxyServer {
    /** The file at `config_path`. */
    const store: ConfigFile
    /** `self.config`. */
    var config: Config

    ghost predicate Valid()
      reads this, store
    {
      ValidConfig(config) && ValidFile(store.content)
    }

    constructor (store: ConfigFile, loaded: Config)
      requires ValidConfig(loaded) && ValidFile(store.content)
      ensures this.store == store && config == loaded
      ensures Valid()
    {
      this.store := store;
      config := loaded;
    }

    /**
     * `ProxyServer(config_path)`: `load_config` takes the file's document or
     * the default; an unreadable file raises and no server exists.
     */
    static method Open(store: ConfigFile) returns (server: ProxyServer?)
      requires ValidFile(store.content)
      ensures server == null <==> store.content == Unreadable
      ensures server != null ==>
        fresh(server) && server.store == store && server.Valid()
        && server.config == LoadConfig(store.content).value
    {
      var loaded := LoadConfig(store.content);
      if loaded.None? {
        return null;
      }
      server := new ProxyServer(store, loaded.value);
    }

    /** `save_config`: write `c`; only a complete write makes `c` the configuration. */
    method SaveConfig(c: Config, w: WriteOutcome) returns (saved: bool)
      requires Valid() && ValidConfig(c)
      modifies this, store
      ensures Valid()
      ensures saved <==> w == Written
      ensures store.content == AfterWrite(old(store.content), c, w)
      ensures config == (if saved then c else old(config))
      ensures saved ==> store.content == Json(config)
    {
      store.content := AfterWrite(store.content, c, w);
      saved := w == Written;
      if saved {
        config := c;
      }
    }

    /** `get_target_domain`: an exact lookup of the host among the rule keys. */
    function GetTargetDomain(source: string): (r: Option<string>)
      reads this
      ensures r.None? <==> !HasKey(RulesOf(config), source)
      ensures ValidConfig(config) ==>
        forall i :: 0 <= i < |RulesOf(config)| && RulesOf(config)[i].0 == source ==> r == Some(RulesOf(config)[i].1)
    {
      GetEntries(RulesOf(config));
      Get(RulesOf(config), source)
    }

    /** `GET /api/rules`: the rule table, or `{}` when the configuration has none. */
    function GetRules(): (r: Rules)
      reads this
      ensures config.proxyRules.None? ==> r == []
      ensures ValidConfig(config) ==> OrderedDict.Valid(r)
      ensures forall k :: Get(r, k) == GetTargetDomain(k)
    {
      RulesOf(config)
    }

    /** `POST /api/config`: save the posted configuration; 200, or 400 when the save fails. */
    method UpdateConfig(c: Config, w: WriteOutcome) returns (status: nat)
      requires Valid() && ValidConfig(c)
      modifies this, store
      ensures Valid()
      ensures status == (if w == Written then 200 else 400)
      ensures store.content == AfterWrite(old(store.content), c, w)
      ensures config == (if w == Written then c else old(config))
    {
      var saved := SaveConfig(c, w);
      status := if saved then 200 else 400;
    }

    /**
     * `POST /api/rules`: 400 for a missing or empty field; a configuration
     * without `proxy_rules` raises `KeyError`, which Flask answers with 500;
     * otherwise the rule is stored in memory, then saved: 200, or 400 with the
     * rule still in memory.
     */
    method AddRule(source: Option<string>, target: Option<string>, w: WriteOutcome) returns (status: nat)
      requires Valid()
      modifies this, store
      ensures Valid()
      ensures Blank(source) || Blank(target) ==>
        status == 400 && config == old(config) && store.content == old(store.content)
      ensures !Blank(source) && !Blank(target) && old(config).proxyRules.None? ==>
        status == 500 && config == old(config) && store.content == old(store.content)
      ensures !Blank(source) && !Blank(target) && old(config).proxyRules.Some? ==>
        var c := old(config).(proxyRules := Some(Set(old(config).proxyRules.value, source.value, target.value)));
        config == c && store.content == AfterWrite(old(store.content), c, w)
        && status == (if w == Written then 200 else 400)
      ensures status == 200 ==>
        GetTargetDomain(source.value) == Some(target.value) && store.content == Json(config)
      ensures status == 200 ==>
        forall k :: k != source.value ==> Get(RulesOf(config), k) == Get(RulesOf(old(config)), k)
    {
      if Blank(source) || Blank(target) {
        return 400;
      }
      if config.proxyRules.None? {
        return 500;
      }
      var rules := config.proxyRules.value;
      SetSpec(rules, source.value, target.value);
      config := config.(proxyRules := Some(Set(rules, source.value, target.value)));
      var saved := SaveConfig(config, w);
      status := if saved then 200 else 400;
    }

    /**
     * `DELETE /api/rules/<source>`: 404 for an absent key; a present key is
     * deleted, then saved: 200, or 404 although the key is gone.
     */
    method DeleteRule(source: string, w: WriteOutcome) returns (status: nat)
      requires Valid()
      modifies this, store
      ensures Valid()
      ensures !HasKey(RulesOf(old(config)), source) ==>
        status == 404 && config == old(config) && store.content == old(store.content)
      ensures HasKey(RulesOf(old(config)), source) ==>
        var c := old(config).(proxyRules := Some(Delete(RulesOf(old(config)), source)));
        config == c && store.content == AfterWrite(old(store.content), c, w)
        && status == (if w == Written then 200 else 404)
      ensures GetTargetDomain(source) == None
        || (status == 404 && config == old(config) && store.content == old(store.content))
      ensures forall k :: k != source ==> Get(RulesOf(config), k) == Get(RulesOf(old(config)), k)
    {
      var rules := RulesOf(config);
      if !HasKey(rules, source) {
        return 404;
      }
      DeleteSpec(rules, source);
      config := config.(proxyRules := Some(Delete(rules, source)));
      var saved := SaveConfig(config, w);
      status := if saved then 200 else 404;
    }

    /**
     * The catch-all `proxy` route for a request to `requestHost` (which may
     * carry a port), matched as `urlPath`, whose `request.path` is `path` and
     * whose query string is `query`: 404 with the rule keys unless the
     * port-less host has a rule with a non-empty target, and otherwise the
     * URL built from `full_path` as written.
     */
    function Route(requestHost: string, urlPath: string, path: string, query: string): (r: RouteResult)
      reads this
      ensures var host := Split(requestHost, ":")[0];
        r.ProxyTo? <==> HasKey(RulesOf(config), host) && Get(RulesOf(config), host).value != []
      ensures var host := Split(requestHost, ":")[0];
        r.ProxyTo? ==> r.url == TargetUrlAsWritten(Get(RulesOf(config), host).value, urlPath, FullPath(path, query))
      ensures r.ProxyTo? ==> StartsWith(r.url, "https://")
      ensures r.NoRule? ==> !Contains(r.host, ":") && StartsWith(requestHost, r.host)
      ensures r.NoRule? ==> r.availableRules == Keys(RulesOf(config))
    {
      HostPartIsPrefix(requestHost);
      var host := Split(requestHost, ":")[0];
      match GetTargetDomain(host)
      case None => NoRule(host, Keys(RulesOf(config)))
      case Some(t) =>
        if t == [] then NoRule(host, Keys(RulesOf(config)))
        else
          var u := TargetUrlAsWritten(t, urlPath, FullPath(path, query));
          assert u[..8] == BaseUrl(t, urlPath)[..8];
          ProxyTo(u)
    }

    /** The port of the request's host never changes the answer. */
    lemma RouteIgnoresPort(h: string, port: string, urlPath: string, path: string, query: string)
      requires NoChar(h, ':')
      ensures Route(h + ":" + port, urlPath, path, query) == Route(h, urlPath, path, query)
    {
      assert h + ":" + port == h + [':'] + port;
      FindAfterPrefix(h, ':', port);
      NoCharContains(h, ':');
    }

    /**
     * A request whose host has a rule is proxied to `https://target/urlPath`
     * with its whole query string, as long as neither the path nor the query
     * holds a '?'.
     */
    lemma RouteForwardsQuery(h: string, urlPath: string, path: string, query: string)
      requires NoChar(h, ':') && HasKey(RulesOf(config), h) && Get(RulesOf(config), h).value != []
      requires NoChar(path, '?') && NoChar(query, '?')
      ensures Route(h, urlPath, path, query) == ProxyTo(BaseUrl(Get(RulesOf(config), h).value, urlPath) + "?" + query)
    {
      NoCharContains(h, ':');
      QueryForwarded(Get(RulesOf(config), h).value, urlPath, path, query);
    }
  }

  /**
   * The lookup is exact: a rule for `example.com` does not serve
   * `api.example.com` here, while the MITM proxy's suffix match rewrites it.
   */
  lemma ExactNotSuffix(target: string)
    ensures Get([("example.com", target)], "api.example.com") == None
    ensures ResolveIn([("example.com", target)], "api.example.com") == Some(StripScheme(target))
  {
    var rules := [("example.com", target)];
    NoCharContains("example.com", ':');
    NoColonNoSchemeSep("example.com");
    assert EndsWith("api.example.com", "example.com");
    assert KeyMatches("api.example.com", rules[0].0);
    ResolveFirstMatch(rules, "api.example.com", 0);
  }
}
