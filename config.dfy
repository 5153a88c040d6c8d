/**
 * The JSON configuration shared by the MITM proxy (mitm_proxy.py), the
 * desktop API (app.py) and the Flask reverse proxy (proxy_server.py), and the
 * file that holds it.
 */
module ProxyConfig {
  import opened Base
  import opened OrderedDict

  /** `proxy_rules`: source host to target host, in insertion order. */
  type Rules = Dict<string, string>

  /**
   * The configuration fields the core reads. A JSON object may lack
   * `proxy_rules`, so that field is optional.
   */
  datatype Config = Config(proxyRules: Option<Rules>, port: Option<int>)

  /** Every rule table held by the configuration has unique keys, as a JSON object loaded into a dict does. */
  predicate ValidConfig(c: Config)
  {
    c.proxyRules.Some? ==> Valid(c.proxyRules.value)
  }

  /** `config.get('proxy_rules', {})`. */
  function RulesOf(c: Config): (r: Rules)
    ensures c.proxyRules.None? ==> r == []
    ensures c.proxyRules.Some? ==> r == c.proxyRules.value
    ensures ValidConfig(c) ==> Valid(r)
  {
    if c.proxyRules.Some? then c.proxyRules.value else []
  }

  /** The configuration both servers fall back to when no file exists: no rules, port 8080. */
  function DefaultConfig(): (c: Config)
    ensures ValidConfig(c) && RulesOf(c) == [] && c.port == Some(8080)
  {
    Config(Some([]), Some(8080))
  }

  /** What the configuration file holds: nothing, a JSON document, or bytes `json.load` rejects. */
  datatype FileContent = Missing | Json(config: Config) | Unreadable

  /**
   * How one `open(path, 'w')` followed by `json.dump` ends, as decided by the
   * disk: written, refused at `open` (file untouched), or failed after `open`
   * truncated the file (leaving it unreadable).
   */
  datatype WriteOutcome = Written | OpenFailed | DumpFailed

  /** The file after a save attempt. */
  function AfterWrite(before: FileContent, c: Config, w: WriteOutcome): (after: FileContent)
    ensures w == Written ==> after == Json(c)
    ensures w == OpenFailed ==> after == before
    ensures w == DumpFailed ==> after == Unreadable
  {
    match w
    case Written => Json(c)
    case OpenFailed => before
    case DumpFailed => Unreadable
  }

  /**
   * `load_config` of both servers: the file's document when it exists, the
   * default when it does not; an unreadable file raises (`None` here).
   */
  function LoadConfig(f: FileContent): (r: Option<Config>)
    ensures r.None? <==> f == Unreadable
    ensures f.Json? ==> r == Some(f.config)
    ensures f == Missing ==> r == Some(DefaultConfig())
  {
    match f
    case Missing => Some(DefaultConfig())
    case Json(c) => Some(c)
    case Unreadable => None
  }

  /**
   * A save followed by a load: a completed write is read back as the saved
   * configuration, a refused `open` leaves what a load gave before, and a
   * failure after `open` leaves a file no load accepts. A save of a valid
   * configuration never makes a valid file invalid.
   */
  lemma LoadAfterWrite(before: FileContent, c: Config, w: WriteOutcome)
    requires ValidFile(before) && ValidConfig(c)
    ensures ValidFile(AfterWrite(before, c, w))
    ensures w == Written ==> LoadConfig(AfterWrite(before, c, w)) == Some(c)
    ensures w == OpenFailed ==> LoadConfig(AfterWrite(before, c, w)) == LoadConfig(before)
    ensures w == DumpFailed ==> LoadConfig(AfterWrite(before, c, w)) == None
    ensures LoadConfig(AfterWrite(before, c, w)).Some? ==> w == Written || (w == OpenFailed && before != Unreadable)
  {
  }

  /** A document `json.load` produced: its rule object has unique keys. */
  predicate ValidFile(f: FileContent)
  {
    f.Json? ==> ValidConfig(f.config)
  }

  /** Python's `not x` for a rule field the caller may leave out: absent or empty. */
  predicate Blank(x: Option<string>)
  {
    x.None? || x.value == []
  }

  /** The configuration file on disk, shared by every component that opens the same path. */
  class ConfigFile {
    var content: FileContent

    constructor (content: FileContent)
      ensures this.content == content
    {
      this.content := content;
    }
  }
}
