# aiproxy core in Dafny

This project models the routing core of aiproxy, a local HTTP/HTTPS proxy
with a desktop window for editing its rules, and proves properties of that
model.

- **MITM proxy** (`mitm_proxy.py`):
  - The host resolver maps a requested host through the `proxy_rules` table. It strips the port, then compares the host with each key for equality or a suffix match, and the first match in insertion order wins.
  - The request-head reader and the request-line parser.
  - Recovery of the authority of an origin-form request from its `Host` header.
  - The choice of the address `forward_http` dials.
  - `CONNECT` handling: parsing `host:port`, choosing interception (a forged certificate for the original host) or a plain tunnel (TLS to the server exactly on port 443), and what each session writes to the client and leaves on disk.
  - The certificate name list and the temporary file names of an interception.
  - The two-way relay, as a fold over a trace of `select` rounds.
- **Desktop API** (`AppAPI` in `app.py`): a class holding its own copy of the configuration. `add_rule` and `delete_rule` edit the rule table in place and then save the whole configuration. `create_app` loads the same file separately for the MITM proxy, which never reloads it, so rule edits do not reach the running proxy.
- **Flask reverse proxy** (`ProxyServer` in `proxy_server.py`):
  - A second configuration holder with the same rule routes.
  - An exact-match host lookup.
  - The `https://` target URL built for each request.
  - The request headers sent upstream and the response headers sent back.

Python semantics the code relies on are modelled explicitly, as CPython 3.12 and 3.13 define them:

- `str.split` (at least one piece; pieces never contain the separator; they join back into the input).
- Insertion-ordered `dict`.
- `int()` on a port: the whitespace it skips (not the separators U+001C to U+001F that `isspace()` accepts), and the decimal digits of every script in Unicode 15.0, the Unicode version of CPython 3.12 and 3.13 (`int('٤٤٣') == 443`).
- `bytes.decode('utf-8', errors='ignore')`.
- The `urlsplit` scheme, netloc, `hostname` and `port` rules (unchanged since CPython 3.11).

Case mapping is ASCII only. `str.lower()` and `str.upper()` can produce `host:` or `CONNECT` only from ASCII letters, so those comparisons come out the same; the lowercasing of `hostname` is the one place where this matters (see "## Left out").

Sockets, TLS and files are abstracted:

- The chunks a socket yields are a sequence.
- A session's failure point is a count `ok` of the steps that succeed.
- A configuration write ends as written, refused at `open`, or failed after truncating the file.
- The configuration file is a `ConfigFile` object shared by everything that opens the same path.

The code behaves differently from what its names, comments and log messages suggest in these places, and the model follows the code:

- An unmatched host comes back without its port, not unchanged (`DomainRules.ResolveUnmatched`).
- Rules are tried in insertion order and the first match wins (`DomainRules.ResolveFirstMatch`). The order is not left unspecified.
- The relay never ends on an idle timeout (`Relay.IdleIrrelevant`).
- The temporary certificate files are removed when `do_mitm` ends, after the relay, not right after the client handshake (`ConnectTunnel.MitmLeavesNoTempFiles`).
- Rule edits are not applied to the running MITM proxy (`DesktopApi.AddRuleWhileRunning`).
- The configuration file is overwritten in place, not atomically: a write that fails after `open` leaves an unreadable file (`ProxyConfig.LoadAfterWrite`).

Modules:

| file | module |
|---|---|
| base.dfy | `Base`: `Option`, bytes, concatenation of chunks |
| strings.dfy | `PyStr`: the `str` operations the code uses |
| ordered_dict.dfy | `OrderedDict`: an insertion-ordered dictionary |
| utf8.dfy | `Utf8`: lenient UTF-8 decoding |
| config.dfy | `ProxyConfig`: the configuration, its file, loading and saving |
| domain_rules.dfy | `DomainRules`: the MITM resolver as functions |
| url.dfy | `Url`: `urlsplit` authority, host and port |
| request.dfy | `HttpRequest`: the head reader and request routing |
| connect.dfy | `ConnectTunnel`: `CONNECT` parsing, dispatch and sessions |
| relay.dfy | `Relay`: `relay_data` |
| mitm_proxy.dfy | `MitmProxy`: the `MITMProxyServer` class |
| app_api.dfy | `DesktopApi`: the `AppAPI` class and `create_app` |
| proxy_server.dfy | `FlaskProxy`: the `ProxyServer` class and its pure helpers |

## Model

| member | source | states |
|---|---|---|
| PyStr.Split | mitm_proxy.py:218 | `str.split(sep)` gives at least one piece. No piece contains `sep`, and the first piece is the text before the first `sep`. |
| PyStr.SplitAtFirst | mitm_proxy.py:218 | The pieces are the text before the first `sep`, then the pieces of the text after it. |
| PyStr.SplitCount | mitm_proxy.py:218 | Without `sep` the input is the only piece; with it there are at least two. |
| PyStr.SplitLastIsSuffix | mitm_proxy.py:197 | The input ends with the last piece. |
| PyStr.JoinSplit | mitm_proxy.py:218 | Joining the pieces of a split with the separator gives back the input. |
| PyStr.LastPiece | mitm_proxy.py:197 | `s.split('://')[-1]` contains no `'://'`, ends `s`, and is `s` itself when there is no separator. |
| PyStr.ReplaceChar | mitm_proxy.py:320 | `host.replace('.', '_')`: the same length, with every '.' replaced and every other character kept. |
| PyStr.StripStart | mitm_proxy.py:243 | `lstrip()` leaves a suffix of the input that does not start with whitespace. |
| PyStr.StripStartRemovesSpaces | mitm_proxy.py:243 | Everything `lstrip()` removes is whitespace. |
| PyStr.StripEnd | mitm_proxy.py:243 | `rstrip()` leaves a prefix of the input that does not end with whitespace. |
| PyStr.StripEndRemovesSpaces | mitm_proxy.py:243 | Everything `rstrip()` removes is whitespace. |
| PyStr.StripUnspaced | mitm_proxy.py:243 | `strip()` leaves a value without surrounding whitespace unchanged. |
| PyStr.ParseIntNatToString | mitm_proxy.py:273 | `int()` reads back the decimal spelling `str(n)` of every natural number; Python's 4300-digit limit is not modelled (see "## Left out"). |
| PyStr.ParseIntNeedsDigit | mitm_proxy.py:273 | `int()` rejects text holding no decimal digit of any script. |
| PyStr.ParseIntOtherScript | mitm_proxy.py:273 | `int()` reads digits of other scripts: `int('٤٤٣')` is 443. |
| PyStr.ParseIntSeparatorControl | mitm_proxy.py:273 | A separator U+001C to U+001F before or after the digits makes `int()` fail, although `strip()` would remove it. |
| Utf8.DecodeEncode | mitm_proxy.py:217 | Decoding the UTF-8 encoding of any text gives the text back. |
| Utf8.DecodeAscii | mitm_proxy.py:217 | ASCII bytes decode one character per byte, with the same code. |
| OrderedDict.Get | proxy_server.py:78 | `d.get(k)` is `None` exactly when `k` is not a key. |
| OrderedDict.GetAt | proxy_server.py:78 | In a dict with unique keys, looking up an entry's key gives that entry's value. |
| OrderedDict.Keys | proxy_server.py:229 | `list(d.keys())` lists the keys in insertion order. |
| OrderedDict.Set | app.py:158 | `d[k] = v` replaces the value in place for an existing key and appends a new key at the end. |
| OrderedDict.SetSpec | app.py:158 | After `d[k] = v`, keys stay unique, `k` maps to `v`, and every other key keeps its value. The key list grows by `k` only when `k` was new. |
| OrderedDict.Delete | app.py:168 | After the removal `k` is absent, and removing an absent key changes nothing. The absent-key case is `headers.pop('Host', None)` (proxy_server.py:85); every `del d[k]` in the code is guarded by an `in` test (app.py:167-168, proxy_server.py:193-194), so its `KeyError` never arises. |
| OrderedDict.DeleteSpec | app.py:168 | `del d[k]` keeps keys unique, removes only `k` (one entry fewer when it was present) and keeps every other value. |
| ProxyConfig.RulesOf | mitm_proxy.py:191 | `config.get('proxy_rules', {})`: the stored table, or the empty one when the field is absent. Keys stay unique. |
| ProxyConfig.DefaultConfig | mitm_proxy.py:187 | The fallback configuration has no rules and port 8080. |
| ProxyConfig.LoadAfterWrite | app.py:48-57 | A load after a completed save returns the saved configuration. After a refused `open`, a load returns what it returned before. After a failure inside `json.dump`, the file no longer loads. A save never makes a valid file invalid. |
| DomainRules.StripScheme | mitm_proxy.py:197 | A scheme-stripped key or value holds no `'://'`, is a suffix of the input, and equals the input when it had no scheme. |
| DomainRules.HostPart | mitm_proxy.py:192-194 | The host compared with the keys holds no ':'. It is a prefix of the input ending right before its first ':', or the whole input when there is no ':'. |
| DomainRules.NoColonNoSchemeSep | mitm_proxy.py:193 | Text without ':' has no `'://'`, so the scheme strip after the port strip never applies. |
| DomainRules.ResolveIn | mitm_proxy.py:196-201 | The rule scan finds nothing exactly when no key matches by equality or suffix. A found target holds no `'://'`. |
| DomainRules.ResolveFirstMatch | mitm_proxy.py:196-201 | When rule `i` is the first whose key matches, the result is rule `i`'s scheme-stripped value. |
| DomainRules.ResolveFromRule | mitm_proxy.py:196-201 | Any found target is the scheme-stripped value of a matching rule with no matching rule before it. |
| DomainRules.ResolveUnmatched | mitm_proxy.py:203 | With no matching rule, the result is the input cut at its first ':', without ':', and the input itself when it has none. |
| DomainRules.SuffixOverMatch | mitm_proxy.py:198 | Any host ending in a key's text matches it, e.g. `notexample.com` matches `example.com`. |
| DomainRules.EmptyKeyMatchesAll | mitm_proxy.py:197-198 | A key that is empty after scheme stripping matches every host. |
| MitmProxy.MitmProxyServer.constructor | mitm_proxy.py:178 | The server holds the configuration loaded at construction. |
| MitmProxy.MitmProxyServer.CutHost | mitm_proxy.py:192-194 | The port and scheme cut gives the host `HostPart` specifies. |
| MitmProxy.MitmProxyServer.GetTargetDomain | mitm_proxy.py:189-203 | The loop returns what the resolver function `Resolve` specifies for the server's rules. |
| MitmProxy.MitmProxyServer.HandleRequest | mitm_proxy.py:205-258 | Reading stops where `StopsAfter` says. The data is exactly the chunks read, and the action is `RouteRequest` of the server's rules and that data. |
| MitmProxy.MitmProxyServer.RouteHead | mitm_proxy.py:217-258 | The action taken on a read head is `RouteRequest` of the server's rules and that head, with the rewrite applied whenever the resolved host differs from the whole authority. |
| MitmProxy.MitmProxyServer.HandleConnect | mitm_proxy.py:268-297 | The session outcome is `ConnectSession` for the server's rules. |
| HttpRequest.ReadHead | mitm_proxy.py:208-215 | The loop reads chunks until an empty one or until the buffer holds CRLFCRLF. The data is their concatenation. |
| HttpRequest.StopsAfterUnique | mitm_proxy.py:208-215 | The stopping point is determined by the chunks. |
| HttpRequest.Lines | mitm_proxy.py:217-218 | The decoded head always splits into at least one line (so `if not lines` never fires). |
| HttpRequest.RequestLineParts | mitm_proxy.py:223-224 | The request line always splits into at least one part. |
| HttpRequest.HostLineColon | mitm_proxy.py:242-243 | A line whose lowercase form starts with `host:` has its first ':' right after `host`. |
| HttpRequest.HostValue | mitm_proxy.py:243 | The host value is the text after `host:` with surrounding whitespace stripped. |
| HttpRequest.HostHeader | mitm_proxy.py:240-244 | No host is found exactly when no line is a host line. |
| HttpRequest.HostHeaderFirst | mitm_proxy.py:241-244 | The first host line supplies the value, whatever later lines say. |
| HttpRequest.AbsoluteUrl | mitm_proxy.py:239-246 | A target with `'://'`, or one without a host line, is kept. Any change prefixes `http://` and the host value. |
| HttpRequest.ForwardDial | mitm_proxy.py:252-258 | The corrected dial: with no matching rule, the request goes where its URL says. With a matching rule, it agrees with the code as written. |
| HttpRequest.PortDroppedWhenUnmatched | mitm_proxy.py:252-256 | As written, `http://h:p/...` with no rule for `h` is dialed at `(h, 80)`. The corrected dial uses `(h, p)`. |
| HttpRequest.ResolveHostWithPort | mitm_proxy.py:252-253 | With no rule for `h`, the authority `h:p` resolves to `h`, which differs from the authority. |
| HttpRequest.HostPartValue | mitm_proxy.py:192-194 | The resolver's host is the first piece of the split on ':'. |
| HttpRequest.RouteRequest | mitm_proxy.py:217-258 | Fewer than two request-line parts drop the request. `CONNECT` in any letter case goes to the tunnel logic with the second part. A forwarded request carries exactly the bytes read. Forwarding needs a non-empty authority. |
| HttpRequest.RouteUnmatched | mitm_proxy.py:239-258 | A request whose authority has no port and matches no rule is forwarded unchanged to the host in its URL, on port 80. |
| HttpRequest.RouteMatched | mitm_proxy.py:250-258 | A request whose host a rule matches is forwarded where the corrected dial `ForwardDial` sends it. |
| HttpRequest.RouteToRuleTarget | mitm_proxy.py:239-258 | A request whose host the first matching rule maps to a bare target `t` is forwarded, byte for byte, to `t` on port 80. |
| HttpRequest.RouteToRuleTargetWithPort | mitm_proxy.py:239-258 | A request whose host the first matching rule maps to `h:p` (such as `localhost:3000`) is forwarded, byte for byte, to `h` on port `p`. |
| Url.SchemeEnd | mitm_proxy.py:248 | A scheme is a letter followed by scheme characters, up to the first ':'. |
| Url.AfterScheme | mitm_proxy.py:248 | What follows the scheme is a suffix of the URL. |
| Url.Netloc | mitm_proxy.py:248-249 | The authority holds no '/', '?' or '#'. |
| Url.AfterNetloc | mitm_proxy.py:255-256 | What follows the authority is a suffix of the URL. When there is an authority, that suffix is empty or starts with '/', '?' or '#'. |
| Url.HostInfo | mitm_proxy.py:399 | The host-and-port part after the last '@' holds no '@'. |
| Url.LowerHost | mitm_proxy.py:399 | `hostname` lowercasing keeps the length. |
| Url.HostName | mitm_proxy.py:399 | `hostname` is never the empty string. |
| Url.Port | mitm_proxy.py:399 | A port that is read is at most 65535. |
| Url.DialTarget | mitm_proxy.py:399 | A dial has a non-empty host and a port in 1..65535 (`port or 80`). |
| Url.NetlocOfHttp | mitm_proxy.py:255-256 | `http://` + authority + rest splits back into that authority and that rest. |
| Url.HostAlone | mitm_proxy.py:399 | A bare host `h` has host name `h` (lowercased) and no port. |
| Url.HostWithPort | mitm_proxy.py:399 | The authority `h:p` has host name `h` (lowercased) and port `p`. |
| Url.DialOfHttp | mitm_proxy.py:399 | `http://h:p/...` is dialed at `(h, p)` and `http://h/...` at `(h, 80)`. |
| ConnectTunnel.ParseConnectTarget | mitm_proxy.py:271-276 | A target without ':' gets port 443. A parsed host holds no ':' and is a prefix of the target. |
| ConnectTunnel.ParseConnectTargetRoundTrip | mitm_proxy.py:271-273 | `host:port` parses back to `(host, port)`. |
| ConnectTunnel.ParseConnectTargetTwoColons | mitm_proxy.py:272 | A target with two ':' is refused. |
| ConnectTunnel.ParseConnectTargetSeparatorControl | mitm_proxy.py:271-273 | A port with a separator U+001C to U+001F before or after it (`h:\x1c443`) is refused, so the request is answered with 502. |
| ConnectTunnel.PlanConnect | mitm_proxy.py:279-289 | Refusal iff parsing fails. Interception keeps the original host for the certificate, dials the resolved host and keeps the port. A tunnel dials the parsed host, which the resolver leaves unchanged. |
| ConnectTunnel.InterceptIffMapped | mitm_proxy.py:280-282 | Interception happens iff a rule matches and its target differs from the host. |
| ConnectTunnel.TempName | mitm_proxy.py:320-321 | Temporary names start with `temp_`, end with the extension, and have a fixed length. |
| ConnectTunnel.CertKeyDistinct | mitm_proxy.py:320-321 | The certificate and key files of one host never share a name. |
| ConnectTunnel.TempNameCollision | mitm_proxy.py:320-321 | Hosts differing only in '.' versus '_' share temporary files. |
| ConnectTunnel.SanList | mitm_proxy.py:137-141 | The name list starts with the domain and has a second entry iff the domain has a '.'. |
| ConnectTunnel.SanWildcard | mitm_proxy.py:139-141 | `first.rest` adds `*.rest`: `api.example.com` gives `*.example.com`, and `example.com` gives `*.com`. |
| ConnectTunnel.SanNoDot | mitm_proxy.py:137 | A name without '.' gets only itself. |
| ConnectTunnel.Replies | mitm_proxy.py:329-346 | The client gets the 200 iff its write was reached and succeeded, and a 502 iff some step raised and that step was not the client handshake, whose failure leaves the client socket closed. |
| ConnectTunnel.MitmLeavesNoTempFiles | mitm_proxy.py:352-357 | An interception removes its certificate and key files by its end and removes nothing else. |
| ConnectTunnel.MitmReplyOrder | mitm_proxy.py:329-346 | The 200 is sent before the client TLS upgrade. The relay runs only after a clean 200. Every failure but the client handshake ends with a 502; a failed handshake leaves the client with the 200 alone. |
| ConnectTunnel.TunnelShape | mitm_proxy.py:361-378 | A tunnel uses TLS upstream iff the port is 443, and issues no certificate and writes no file. |
| ConnectTunnel.TunnelEnd | mitm_proxy.py:361-378 | A tunnel leaves the files as they were, relays iff every step succeeds, and then has answered only the 200. |
| Relay.ReadStep | mitm_proxy.py:431-441 | A readable socket forwards its data, or ends the relay on an empty read or an error, delivering nothing more. |
| Relay.RelayData | mitm_proxy.py:416-443 | The loop produces what the fold `Run` over the trace specifies. |
| Relay.EndedStaysEnded | mitm_proxy.py:434-441 | Once the relay has returned, later rounds change nothing. |
| Relay.IdleIrrelevant | mitm_proxy.py:428-429 | Removing all idle rounds leaves the outcome unchanged: there is no idle timeout. |
| Relay.ForwardsUnchanged | mitm_proxy.py:433-439 | Data read from one side is appended unchanged to what the other side has received. |
| Relay.EndingRounds | mitm_proxy.py:425-441 | An exceptional socket, an empty read, or a failed recv or send ends the relay. An idle round does not. |
| DesktopApi.AppApi.constructor | app.py:32-35 | The API holds the configuration it was given and the file path. |
| DesktopApi.AppApi.SaveConfig | app.py:48-57 | True iff the write completes. Only then is the saved configuration the in-memory one, and the file holds it. |
| DesktopApi.AppApi.LoadConfig | app.py:37-46 | A readable file replaces the in-memory configuration. Otherwise the old one is kept and returned. |
| DesktopApi.AppApi.AddRule | app.py:152-163 | A missing or empty field gives "Missing source or target" and nothing changes. No rule table raises. Otherwise the rule is set in memory first, then saved, and stays in memory when the save fails. On success it is on disk, and every other key is unchanged. |
| DesktopApi.AppApi.DeleteRule | app.py:165-173 | An absent key gives "Rule not found" and nothing changes. A present key is removed, then saved. A failed save still reports "Rule not found". On success the key is gone from memory and from disk. |
| DesktopApi.AppApi.GetRules | app.py:175-177 | The table, or `{}` without one. A key is found exactly when the table holds it. |
| DesktopApi.CreateApp | app.py:207-249 | The API and the MITM proxy start from the same file contents as separate copies, and nothing starts on an unreadable file. |
| DesktopApi.AddRuleWhileRunning | app.py:249 | A rule added through the API reaches the file, while the running proxy keeps the rules it started with. |
| FlaskProxy.WithoutSpec | proxy_server.py:119-122 | The comprehension keeps every header whose lowercase name is not dropped, with its value, and keys stay unique. |
| FlaskProxy.FilterHeadersAsWritten | proxy_server.py:119-123 | The encoding headers are dropped in any letter case. Every other header is kept, and `Access-Control-Allow-Origin` is `*`. |
| FlaskProxy.AllowOriginTwice | proxy_server.py:123 | An upstream `access-control-allow-origin` survives beside the added `Access-Control-Allow-Origin: *`. |
| FlaskProxy.FilterHeaders | proxy_server.py:119-123 | The corrected filter: exactly one allow-origin header, `*`, placed last. Other headers are treated as the code treats them. |
| FlaskProxy.UpstreamRequest | proxy_server.py:84-112 | `Host` is removed, every other header is kept, and there is a body iff the method is neither GET nor DELETE. |
| FlaskProxy.TargetUrlAsWritten | proxy_server.py:234-237 | The URL is always `https://target/path`, followed by '?' and at most the part after `full_path`'s first '?'. |
| FlaskProxy.QueryForwarded | proxy_server.py:234-237 | A query without '?' is appended whole. An empty query leaves a bare '?'. |
| FlaskProxy.QueryCutAtSecondMark | proxy_server.py:234-237 | A query `a?b` reaches the target as `a`. |
| FlaskProxy.TargetUrl | proxy_server.py:235-237 | The corrected URL starts with `https://target/path`, and everything after its first '?' is the full query. |
| FlaskProxy.TargetUrlAgrees | proxy_server.py:234-237 | The corrected URL agrees with the code as written on every query without '?'. |
| FlaskProxy.ProxyServer.constructor | proxy_server.py:23-25 | The server holds the configuration it loaded and its file. |
| FlaskProxy.ProxyServer.Open | proxy_server.py:31-36 | The server gets the file's document, or the default when the file is missing. An unreadable file raises. |
| FlaskProxy.ProxyServer.SaveConfig | proxy_server.py:38-47 | True iff the write completes, and only then does the configuration change. |
| FlaskProxy.ProxyServer.GetTargetDomain | proxy_server.py:75-78 | An exact lookup: `None` iff the host is not a key, otherwise that key's value. |
| FlaskProxy.ProxyServer.GetRules | proxy_server.py:173-175 | The table, or `{}` without one, agreeing with the lookup on every key. |
| FlaskProxy.ProxyServer.UpdateConfig | proxy_server.py:166-171 | 200 iff the save completes, and only then is the posted configuration adopted. |
| FlaskProxy.ProxyServer.AddRule | proxy_server.py:177-189 | A missing or empty field gives 400 and nothing changes. No rule table gives a 500 from the `KeyError`. Otherwise the rule is set, then saved: 200, or 400 with the rule still in memory. On 200 the lookup finds the rule and other keys are unchanged. |
| FlaskProxy.ProxyServer.DeleteRule | proxy_server.py:191-197 | An absent key gives 404 and nothing changes. A present key is removed, then saved: 200, or 404 although the key is gone. No other key changes. |
| FlaskProxy.ProxyServer.Route | proxy_server.py:219-237 | The request is proxied iff the port-less host has a rule with a non-empty target, to the `https://` URL built from `full_path` as written. Otherwise the 404 names the port-less host and lists the rule keys. |
| FlaskProxy.ProxyServer.RouteForwardsQuery | proxy_server.py:234-237 | A request with a rule for its host, and with no '?' in its path or query, is proxied to `https://target/path?query` with the whole query. |
| FlaskProxy.ProxyServer.RouteIgnoresPort | proxy_server.py:222 | The port of the request's host never changes the answer. |
| FlaskProxy.ExactNotSuffix | proxy_server.py:75-78 | Here a rule for `example.com` does not serve `api.example.com`, while the MITM resolver maps it. |

## Left out

- Sockets, `select`, TLS handshakes, socket timeouts, the threaded accept loop and `run` (mitm_proxy.py:445-471) are abstracted. Each session's fate is a step count `ok` and each relay's fate is a trace of rounds. The `select` order of ready sockets and partial `sendall` writes are not modelled.
- Certificate authority and leaf certificate generation (RSA keys, X.509 building and signing, PEM): only the DNS name list is modelled. cert_manager.py, demo.py and config_examples.py are not part of this model.
- `urlsplit` details beyond ordinary host names are not modelled:
  - IPv6 `[...]` literals;
  - removal of tab, CR and LF;
  - leading C0 and space stripping;
  - the NFKC netloc check;
  - the `.port` rules of Python versions before 3.11.
- `str.lower()`/`str.upper()` on non-ASCII text are not modelled. Only ASCII letters can map into `host:` and `CONNECT`, so those comparisons are unaffected.
- PyStr.IsDecimal: the digit table is that of Unicode 15.0. CPython 3.11 (Unicode 14.0) refuses the Kawi (U+11F50) and Nag Mundari (U+1E4F0) digits the model accepts, and CPython 3.14 (Unicode 16.0) accepts digit runs the model refuses.
- PyStr.ParseInt: CPython (since 3.11) refuses to convert text of more than 4300 decimal digits (`sys.get_int_max_str_digits()`) and raises `ValueError`; the model accepts any length. For `CONNECT h:<4301 digits>` the code answers 502 at once. The model parses the port and plans a session: for a port above 65535 its `connect` raises and the reply is the same 502, but a port written with more than 4300 leading zeros (`0…0443`) is accepted by the model where the code refuses it.
- Url.LowerHost: `urlsplit().hostname` lowercases with full Unicode case mapping, and the model maps only ASCII letters, so for a host name with non-ASCII capitals (`ÄPI.example`) the modelled dial host keeps the capitals the code would lower.
- ConnectTunnel.MitmSession: only the files left at the end of a session are modelled. The temporary files exist for the whole relay. A failing `unlink` of the certificate (which skips the key's removal) is not modelled. Neither are two concurrent interceptions of one host, which write the same files.
- ConnectTunnel.ParseConnectTarget: a negative port or a port above 65535 parses. `connect` then raises, which the model treats as the first step failing.
- HttpRequest.RouteRequest: the contract fixes the kind of action, the `CONNECT` target and the payload. The dial destination, which follows the code as written (`ForwardDialAsWritten`), is stated by `RouteToRuleTarget` and `RouteToRuleTargetWithPort` for a host a rule maps, by `RouteUnmatched` and `PortDroppedWhenUnmatched` for one no rule maps, and by `RouteMatched` relating the code to the corrected dial.
- Flask and `requests` plumbing is not modelled:
  - the retrying session;
  - SSE streaming (`_handle_sse`);
  - the 504 and 502 error replies;
  - `CORS(app)`;
  - `/api/test`;
  - `run` with its HTTPS setup.
- `proxy_request` also passes `request.args` as `params`. `requests` appends these to the query already in the target URL, so the parameters reach the upstream twice; the model stops at the URL string.
- Request bodies that are not JSON objects are not modelled. Neither are `source`/`target` values that are not strings: the model takes an optional string per field. The `https` and `log_level` fields of the Flask default configuration are not modelled; only `proxy_rules` and `port` are.
- `AppAPI.get_config` and `update_config` are `_load_config` and `_save_config` under another name. The model's `LoadConfig` and `SaveConfig` stand for them.
- `AppAPI.import_ca_cert` and `test_url` are not modelled (operating-system tools and the network). Neither is the webview window.
- Concurrency between the API thread, proxy connections and the Flask workers is not modelled; each operation is atomic in the model.

## Findings

| source | as written | input that shows it | evidently intended | confidence | as-written member | corrected member |
|---|---|---|---|---|---|---|
| mitm_proxy.py:252-256 | The rewrite test compares the resolver's port-less result with the whole authority. An unmatched host with a port is therefore rewritten to the bare host and dialed on port 80. | `GET http://localhost:8080/ HTTP/1.1` with no rules is sent to `localhost:80` | only hosts a rule maps are rewritten; others are dialed as requested | high; not executed | HttpRequest.PortDroppedWhenUnmatched | HttpRequest.ForwardDial |
| proxy_server.py:234-237 | `full_path.split('?')[1:]` keeps only the text up to the second '?'. A query containing '?' (allowed unencoded by section 3.4 of RFC 3986) is cut. | a request for `/search?q=a?b` is proxied to `https://target/search?q=a`; `requests` then appends `request.args`, so the upstream receives `?q=a&q=a%3Fb` | the whole query string is forwarded | high; not executed | FlaskProxy.QueryCutAtSecondMark | FlaskProxy.TargetUrl |
| proxy_server.py:119-123 | `Access-Control-Allow-Origin` is set in a plain, case-sensitive dict. An upstream header spelled in another case stays beside it. | an upstream `access-control-allow-origin: https://a.example` yields two allow-origin headers | a single `Access-Control-Allow-Origin: *` | medium; not executed | FlaskProxy.AllowOriginTwice | FlaskProxy.FilterHeaders |
