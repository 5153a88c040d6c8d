/**
 * How `MITMProxyServer.handle_request` turns the bytes a client sends into a
 * decision: read the request head, split the request line, hand `CONNECT`
 * to the tunnel logic, recover the authority of an origin-form request from
 * its `Host` header, map the host through the rules and pick the address
 * `forward_http` dials. The bytes forwarded are always the ones read.
 */
module HttpRequest {
  import opened Base
  import opened PyStr
  import opened ProxyConfig
  import opened DomainRules
  import opened Url
  import opened Utf8

  /** `b'\r\n\r\n'`, the end of an HTTP head. */
  const HeadEnd: seq<Byte> := [13, 10, 13, 10]

  /**
   * Reading stops after the first `n` chunks of `recvs` (the successive
   * `recv(4096)` results; past the end of `recvs` the peer has closed and
   * `recv` returns `b''`): all of them are non-empty, no shorter prefix
   * already held the head end, and the next read is empty or the data read
   * holds the head end.
   */
  predicate StopsAfter(recvs: seq<seq<Byte>>, n: nat)
  {
    && n <= |recvs|
    && (forall k :: 0 <= k < n ==> recvs[k] != [])
    && (forall k :: 0 < k < n ==> !Contains(Flatten(recvs[..k]), HeadEnd))
    && (n == |recvs| || recvs[n] == [] || Contains(Flatten(recvs[..n]), HeadEnd))
  }

  /** The stopping point is determined by the chunks: the reader is deterministic. */
  lemma StopsAfterUnique(recvs: seq<seq<Byte>>, n: nat, m: nat)
    requires StopsAfter(recvs, n) && StopsAfter(recvs, m)
    ensures n == m
  {
    assert Flatten(recvs[..0]) == [];
  }

  /** The read loop of `handle_request` (`request_data += chunk` until `b''` or the head end). */
  method ReadHead(recvs: seq<seq<Byte>>) returns (data: seq<Byte>, used: nat)
    ensures StopsAfter(recvs, used)
    ensures data == Flatten(recvs[..used])
  {
    data := [];
    used := 0;
    assert recvs[..0] == [];
    while used < |recvs|
      invariant used <= |recvs|
      invariant data == Flatten(recvs[..used])
      invariant forall k :: 0 <= k < used ==> recvs[k] != []
      invariant forall k :: 0 < k <= used ==> !Contains(Flatten(recvs[..k]), HeadEnd)
    {
      var chunk := recvs[used];
      if chunk == [] {
        break;
      }
      FlattenAppend(recvs[..used], chunk);
      assert recvs[..used + 1] == recvs[..used] + [chunk];
      data := data + chunk;
      used := used + 1;
      if Contains(data, HeadEnd) {
        break;
      }
    }
  }

  /** What `handle_request` does with a request. */
  datatype RequestAction =
    | Drop                                  // return without a reply
    | ConnectTo(target: string)             // `handle_connect(client, url)`
    | Forward(dial: Dial, payload: seq<Byte>) // `forward_http`: connect to `dial`, send `payload`
    | BadGateway                            // `forward_http` fails before connecting: 502 reply

  /** `request_data.decode('utf-8', errors='ignore').split('\r\n')`. */
  function Lines(data: seq<Byte>): (lines: seq<string>)
    ensures |lines| >= 1
  {
    Split(Decode(data), "\r\n")
  }

  /** `first_line.split(' ')`. */
  function RequestLineParts(data: seq<Byte>): (parts: seq<string>)
    ensures |parts| >= 1
  {
    Split(Lines(data)[0], " ")
  }

  /** `method.upper() == 'CONNECT'` (only ASCII letters can upper-case into these letters). */
  predicate IsConnect(verb: string)
  {
    AsciiUpper(verb) == "CONNECT"
  }

  /** `line.lower().startswith('host:')`. */
  predicate IsHostLine(line: string)
  {
    StartsWith(AsciiLower(line), "host:")
  }

  /** A host line has its first ':' at index 4, right after the header name. */
  lemma HostLineColon(line: string)
    requires IsHostLine(line)
    ensures Contains(line, ":") && AfterFirst(line, ":") == line[5..]
  {
    assert forall j :: 0 <= j < 5 ==> LowerChar(line[j]) == "host:"[j];
    assert line[4] == ':';
    assert NoChar(line[..4], ':');
    assert line == line[..4] + [':'] + line[5..];
    FindAfterPrefix(line[..4], ':', line[5..]);
  }

  /** `line.split(':', 1)[1].strip()` of a host line: the header value without surrounding whitespace. */
  function HostValue(line: string): (v: string)
    requires IsHostLine(line)
    ensures v == Strip(line[5..])
  {
    HostLineColon(line);
    Strip(AfterFirst(line, ":"))
  }

  /** The value of the first host line, if any (the `for ... break` over `lines[1:]`). */
  function HostHeader(lines: seq<string>): (h: Option<string>)
    ensures h.None? <==> forall i :: 0 <= i < |lines| ==> !IsHostLine(lines[i])
  {
    if lines == [] then None
    else if IsHostLine(lines[0]) then Some(HostValue(lines[0]))
    else
      assert forall i :: 1 <= i < |lines| ==> lines[i] == lines[1..][i - 1];
      HostHeader(lines[1..])
  }

  /** The first host line wins, whatever later lines (including body lines) say. */
  lemma {:induction false} HostHeaderFirst(lines: seq<string>, i: nat)
    requires i < |lines| && IsHostLine(lines[i])
    requires forall j :: 0 <= j < i ==> !IsHostLine(lines[j])
    ensures HostHeader(lines) == Some(Strip(lines[i][5..]))
  {
    if i > 0 {
      var tail := lines[1..];
      assert tail[i - 1] == lines[i];
      forall j | 0 <= j < i - 1 ensures !IsHostLine(tail[j]) {
        assert tail[j] == lines[j + 1];
      }
      HostHeaderFirst(tail, i - 1);
    }
  }

  /**
   * The URL after origin-form recovery: a request target without `'://'`
   * gets `http://` and a non-empty `Host` value in front; anything else is
   * kept.
   */
  function AbsoluteUrl(url: string, headerLines: seq<string>): (u: string)
    ensures Contains(url, "://") ==> u == url
    ensures HostHeader(headerLines).None? ==> u == url
    ensures u != url ==> u == "http://" + HostHeader(headerLines).value + url
  {
    if Contains(url, "://") then url
    else
      match HostHeader(headerLines)
      case None => url
      case Some(h) => if h != [] then "http://" + h + url else url
  }

  /**
   * The dial destination `forward_http` derives from the absolute URL `url`
   * of a request whose authority is `n`, as written: the mapped host
   * replaces the authority (and the scheme becomes `http`) whenever it
   * differs from the whole authority, port included.
   */
  function ForwardDialAsWritten(rules: Rules, url: string): Option<Dial>
  {
    var n := Netloc(url);
    var mapped := Resolve(rules, n);
    var finalUrl := if mapped != n then "http://" + mapped + AfterNetloc(url) else url;
    DialTarget(finalUrl)
  }

  /**
   * The dial destination with the rewrite limited to hosts a rule maps: an
   * authority no rule matches is dialed as the client asked.
   */
  function ForwardDial(rules: Rules, url: string): (d: Option<Dial>)
    ensures (forall i :: 0 <= i < |rules| ==> !KeyMatches(HostPart(Netloc(url)), rules[i].0)) ==> d == DialTarget(url)
    ensures ResolveIn(rules, HostPart(Netloc(url))).Some? ==> d == ForwardDialAsWritten(rules, url)
  {
    var n := Netloc(url);
    var mapped := Resolve(rules, n);
    var finalUrl := if ResolveIn(rules, HostPart(n)).Some? && mapped != n then "http://" + mapped + AfterNetloc(url) else url;
    DialTarget(finalUrl)
  }

  /**
   * As written, an unmatched host with an explicit port loses the port:
   * `http://h:p/...` (no rule matching `h`) is dialed at `(h, 80)` rather
   * than `(h, p)`; `http://localhost:8080/` with no rules is one such input.
   */
  lemma PortDroppedWhenUnmatched(rules: Rules, h: string, p: nat, tail: string)
    requires h != [] && NoChar(h, ':') && NoChar(h, '@')
    requires forall j :: 0 <= j < |h| ==> !IsDelim(h[j])
    requires 0 < p <= 65535 && p != 80
    requires tail == [] || IsDelim(tail[0])
    requires forall i :: 0 <= i < |rules| ==> !KeyMatches(h, rules[i].0)
    ensures ForwardDialAsWritten(rules, "http://" + (h + ":" + NatToString(p)) + tail) == Some(Dial(LowerHost(h), 80))
    ensures ForwardDial(rules, "http://" + (h + ":" + NatToString(p)) + tail) == Some(Dial(LowerHost(h), p))
  {
    var n := h + ":" + NatToString(p);
    var url := "http://" + n + tail;
    NetlocOfHttp(n, tail);
    ResolveHostWithPort(rules, h, NatToString(p));
    assert Netloc(url) == n && AfterNetloc(url) == tail;
    assert Resolve(rules, n) == h && ResolveIn(rules, HostPart(n)).None?;
    DialOfHttp(h, p, tail);
    assert ForwardDialAsWritten(rules, url) == DialTarget("http://" + h + tail);
    assert ForwardDial(rules, url) == DialTarget(url);
  }

  /** With no rule matching `h`, the authority `h:ps` resolves to the bare host `h`. */
  lemma ResolveHostWithPort(rules: Rules, h: string, ps: string)
    requires NoChar(h, ':')
    requires forall i :: 0 <= i < |rules| ==> !KeyMatches(h, rules[i].0)
    ensures HostPart(h + ":" + ps) == h && Resolve(rules, h + ":" + ps) == h
    ensures h + ":" + ps != h
  {
    var n := h + ":" + ps;
    assert n == h + [':'] + ps;
    FindAfterPrefix(h, ':', ps);
    HostPartValue(n);
  }

  /** `HostPart` is the first piece of the split on ':' (its scheme step never applies). */
  lemma HostPartValue(original: string)
    ensures HostPart(original) == Split(original, ":")[0]
  {
    NoColonNoSchemeSep(Split(original, ":")[0]);
  }

  /** The whole of `handle_request` after the head is read. */
  function RouteRequest(rules: Rules, data: seq<Byte>): (a: RequestAction)
    ensures |RequestLineParts(data)| < 2 ==> a == Drop
    ensures a.ConnectTo? <==> |RequestLineParts(data)| >= 2 && IsConnect(RequestLineParts(data)[0])
    ensures a.ConnectTo? ==> a.target == RequestLineParts(data)[1]
    ensures a.Forward? ==> a.payload == data
    ensures a.Forward? || a.BadGateway? ==> Netloc(AbsoluteUrl(RequestLineParts(data)[1], Lines(data)[1..])) != []
  {
    var lines := Lines(data);
    var parts := RequestLineParts(data);
    if |parts| < 2 then Drop
    else
      var verb := parts[0];
      var url := parts[1];
      if IsConnect(verb) then ConnectTo(url)
      else
        var absolute := AbsoluteUrl(url, lines[1..]);
        if Netloc(absolute) == [] then Drop
        else
          match ForwardDialAsWritten(rules, absolute)
          case None => BadGateway
          case Some(d) => Forward(d, data)
  }

  /**
   * A request whose authority has no port and matches no rule is forwarded,
   * byte for byte, to the host and port 80 its URL names: the resolver hands
   * the authority back unchanged, so no rewrite happens.
   */
  lemma RouteUnmatched(rules: Rules, data: seq<Byte>)
    requires |RequestLineParts(data)| >= 2 && !IsConnect(RequestLineParts(data)[0])
    requires var u := AbsoluteUrl(RequestLineParts(data)[1], Lines(data)[1..]);
      Netloc(u) != [] && !Contains(Netloc(u), ":") && DialTarget(u).Some?
      && forall i :: 0 <= i < |rules| ==> !KeyMatches(Netloc(u), rules[i].0)
    ensures RouteRequest(rules, data)
      == Forward(DialTarget(AbsoluteUrl(RequestLineParts(data)[1], Lines(data)[1..])).value, data)
  {
    var u := AbsoluteUrl(RequestLineParts(data)[1], Lines(data)[1..]);
    ResolveUnmatched(rules, Netloc(u));
  }

  /**
   * A request whose host a rule maps is forwarded as the corrected dial
   * would forward it: the two differ only on unmatched hosts.
   */
  lemma RouteMatched(rules: Rules, data: seq<Byte>)
    requires |RequestLineParts(data)| >= 2 && !IsConnect(RequestLineParts(data)[0])
    requires var u := AbsoluteUrl(RequestLineParts(data)[1], Lines(data)[1..]);
      Netloc(u) != [] && ResolveIn(rules, HostPart(Netloc(u))).Some?
    ensures var u := AbsoluteUrl(RequestLineParts(data)[1], Lines(data)[1..]);
      RouteRequest(rules, data) == (if ForwardDial(rules, u).Some? then Forward(ForwardDial(rules, u).value, data) else BadGateway)
  {
  }

  /**
   * A request whose host the first matching rule `i` maps to a bare target
   * `t` is forwarded, byte for byte, to `t` on port 80: the URL is rewritten
   * to `http://t` followed by the original path, query and fragment.
   */
  lemma RouteToRuleTarget(rules: Rules, data: seq<Byte>, i: nat)
    requires |RequestLineParts(data)| >= 2 && !IsConnect(RequestLineParts(data)[0])
    requires var u := AbsoluteUrl(RequestLineParts(data)[1], Lines(data)[1..]);
      Netloc(u) != [] && i < |rules| && KeyMatches(HostPart(Netloc(u)), rules[i].0)
      && (forall j :: 0 <= j < i ==> !KeyMatches(HostPart(Netloc(u)), rules[j].0))
    requires var t := StripScheme(rules[i].1);
      t != [] && NoChar(t, ':') && NoChar(t, '@') && (forall j :: 0 <= j < |t| ==> !IsDelim(t[j]))
      && t != Netloc(AbsoluteUrl(RequestLineParts(data)[1], Lines(data)[1..]))
    ensures RouteRequest(rules, data) == Forward(Dial(LowerHost(StripScheme(rules[i].1)), 80), data)
  {
    var u := AbsoluteUrl(RequestLineParts(data)[1], Lines(data)[1..]);
    ResolveFirstMatch(rules, HostPart(Netloc(u)), i);
    DialOfBareHost(StripScheme(rules[i].1), AfterNetloc(u));
  }

  /**
   * A request whose host the first matching rule `i` maps to a target
   * `h:p`, such as `localhost:3000`, is forwarded, byte for byte, to `h` on
   * port `p`.
   */
  lemma RouteToRuleTargetWithPort(rules: Rules, data: seq<Byte>, i: nat, h: string, p: nat)
    requires |RequestLineParts(data)| >= 2 && !IsConnect(RequestLineParts(data)[0])
    requires var u := AbsoluteUrl(RequestLineParts(data)[1], Lines(data)[1..]);
      Netloc(u) != [] && i < |rules| && KeyMatches(HostPart(Netloc(u)), rules[i].0)
      && (forall j :: 0 <= j < i ==> !KeyMatches(HostPart(Netloc(u)), rules[j].0))
    requires StripScheme(rules[i].1) == h + ":" + NatToString(p)
    requires h != [] && NoChar(h, ':') && NoChar(h, '@') && (forall j :: 0 <= j < |h| ==> !IsDelim(h[j]))
    requires 0 < p <= 65535
    requires h + ":" + NatToString(p) != Netloc(AbsoluteUrl(RequestLineParts(data)[1], Lines(data)[1..]))
    ensures RouteRequest(rules, data) == Forward(Dial(LowerHost(h), p), data)
  {
    var u := AbsoluteUrl(RequestLineParts(data)[1], Lines(data)[1..]);
    ResolveFirstMatch(rules, HostPart(Netloc(u)), i);
    DialOfHostWithPort(h, p, AfterNetloc(u));
  }
}
