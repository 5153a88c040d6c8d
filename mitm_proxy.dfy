/**
 * `MITMProxyServer`: the configuration it loads once when it is built, the
 * host resolver it consults for every request, and the per-connection
 * handlers, each proved against the functions that specify it.
 */
module MitmProxy {
  import opened Base
  import opened PyStr
  import opened ProxyConfig
  import opened DomainRules
  import opened Url
  import opened Utf8
  import opened HttpRequest
  import opened ConnectTunnel

  class MitmProxyServer {
    /** Read from `config.json` by `__init__` and never reloaded. */
    const config: Config

    constructor (loaded: Config)
      ensures config == loaded
    {
      config := loaded;
    }

    /** The start of `get_target_domain`: the host without its port, and without a scheme if one is left. */
    static method CutHost(originalDomain: string) returns (domain: string)
      ensures domain == HostPart(originalDomain)
    {
      domain := Split(originalDomain, ":")[0];
      if Contains(domain, "://") {
        domain := SecondSchemePiece(domain);
      }
    }

    /** `get_target_domain`: the rule scan, stopping at the first match. */
    method GetTargetDomain(originalDomain: string) returns (target: string)
      ensures target == Resolve(RulesOf(config), originalDomain)
    {
      var rules := RulesOf(config);
      var domain := CutHost(originalDomain);
      var i := 0;
      while i < |rules|
        invariant 0 <= i <= |rules|
        invariant forall j :: 0 <= j < i ==> !KeyMatches(domain, rules[j].0)
      {
        var key, value := rules[i].0, rules[i].1;
        var keyDomain := StripScheme(key);
        if domain == keyDomain || EndsWith(domain, keyDomain) {
          target := StripScheme(value);
          ResolveFirstMatch(rules, domain, i);
          return;
        }
        assert !KeyMatches(domain, key);
        forall j | 0 <= j <= i
          ensures !KeyMatches(domain, rules[j].0)
        {
        }
        i := i + 1;
      }
      target := domain;
    }

    /**
     * `handle_request`: read the head, then route it. `recvs` are the
     * chunks the client socket yields.
     */
    method HandleRequest(recvs: seq<seq<Byte>>) returns (data: seq<Byte>, used: nat, action: RequestAction)
      ensures StopsAfter(recvs, used) && data == Flatten(recvs[..used])
      ensures action == RouteRequest(RulesOf(config), data)
    {
      data, used := ReadHead(recvs);
      action := RouteHead(data);
    }

    /** The part of `handle_request` after the head is read: parse its first line and route it. */
    method RouteHead(data: seq<Byte>) returns (action: RequestAction)
      ensures action == RouteRequest(RulesOf(config), data)
    {
      var lines := Lines(data);
      var parts := RequestLineParts(data);
      if |parts| < 2 {
        return Drop;
      }
      var verb, url := parts[0], parts[1];
      if AsciiUpper(verb) == "CONNECT" {
        return ConnectTo(url);
      }
      if !Contains(url, "://") {
        var host := HostHeader(lines[1..]);
        if host.Some? && host.value != [] {
          url := "http://" + host.value + url;
        }
      }
      assert url == AbsoluteUrl(parts[1], lines[1..]);
      var netloc := Netloc(url);
      if netloc == [] {
        return Drop;
      }
      var mapped := GetTargetDomain(netloc);
      if mapped != netloc {
        url := "http://" + mapped + AfterNetloc(url);
      }
      var dial := DialTarget(url);
      assert dial == ForwardDialAsWritten(RulesOf(config), AbsoluteUrl(parts[1], lines[1..]));
      action := if dial.Some? then Forward(dial.value, data) else BadGateway;
    }

    /** `handle_connect` followed by `do_mitm` or `do_tunnel`, whose first `ok` steps succeed. */
    method HandleConnect(target: string, ok: nat, files: set<string>) returns (outcome: SessionEnd)
      ensures outcome == ConnectSession(RulesOf(config), target, ok, files)
    {
      var parsed := ParseConnectTarget(target);
      if parsed.None? {
        return SessionEnd([BadGatewayReply], false, files);
      }
      var host, port := parsed.value.host, parsed.value.port;
      var mapped := GetTargetDomain(host);
      if mapped != host {
        outcome := MitmSession(host, mapped, port, ok, files);
      } else {
        outcome := TunnelSession(host, port, ok, files);
      }
    }
  }
}
