/**
 * `MITMProxyServer.handle_connect`, `do_mitm` and `do_tunnel`: parsing the
 * `CONNECT` target, choosing interception or a plain tunnel, and what a
 * session writes to the client and leaves on disk, given how far its steps
 * get before one raises. Also the certificate names the interception issues
 * (`CertManager.generate_cert_for_domain`) and its temporary file names.
 */
module ConnectTunnel {
  import opened Base
  import opened PyStr
  import opened ProxyConfig
  import opened DomainRules
  import opened Url

  /** A parsed `CONNECT` target; `int()` accepts signs, so the port is any integer. */
  datatype Target = Target(host: string, port: int)

  /**
   * `host, port = target.split(':'); port = int(port)` when the target has
   * a ':', else port 443. `None` stands for the `ValueError` raised by a
   * second ':' or a port `int()` rejects.
   */
  function ParseConnectTarget(target: string): (r: Option<Target>)
    ensures !Contains(target, ":") ==> r == Some(Target(target, 443))
    ensures r.Some? ==> !Contains(r.value.host, ":") && StartsWith(target, r.value.host)
  {
    if Contains(target, ":") then
      var parts := Split(target, ":");
      if |parts| != 2 then None
      else
        HostPartIsPrefix(target);
        match ParseInt(parts[1])
        case None => None
        case Some(p) => Some(Target(parts[0], p))
    else Some(Target(target, 443))
  }

  /** `host:port` is read back as `(host, port)`. */
  lemma {:induction false} ParseConnectTargetRoundTrip(host: string, port: nat)
    requires NoChar(host, ':')
    ensures ParseConnectTarget(host + ":" + NatToString(port)) == Some(Target(host, port))
  {
    var ps := NatToString(port);
    assert NoChar(ps, ':');
    assert host + ":" + ps == host + [':'] + ps;
    SplitAroundOne(host, ':', ps);
    ParseIntNatToString(port);
  }

  /** A port spelled in another script's digits is read like an ASCII one: `h:٤٤٣` is `(h, 443)`. */
  lemma ParseConnectTargetOtherScript(host: string)
    requires NoChar(host, ':')
    ensures ParseConnectTarget(host + ":" + "\U{664}\U{664}\U{663}") == Some(Target(host, 443))
  {
    var ps := "\U{664}\U{664}\U{663}";
    assert NoChar(ps, ':');
    assert host + ":" + ps == host + [':'] + ps;
    SplitAroundOne(host, ':', ps);
    ParseIntOtherScript();
  }

  /**
   * A port with an information separator around it is refused, although
   * `isspace()` counts the separator as whitespace: `h:\x1c443` is answered
   * with 502.
   */
  lemma ParseConnectTargetSeparatorControl(host: string, c: char, ps: string)
    requires NoChar(host, ':') && NoChar(ps, ':')
    requires '\U{1C}' <= c <= '\U{1F}'
    ensures ParseConnectTarget(host + ":" + ([c] + ps)) == None
    ensures ParseConnectTarget(host + ":" + (ps + [c])) == None
  {
    var front, back := [c] + ps, ps + [c];
    assert NoChar(front, ':') && NoChar(back, ':');
    assert host + ":" + front == host + [':'] + front;
    assert host + ":" + back == host + [':'] + back;
    SplitAroundOne(host, ':', front);
    SplitAroundOne(host, ':', back);
    ParseIntSeparatorControl(c, ps);
  }

  /** A target with two or more ':' is refused. */
  lemma ParseConnectTargetTwoColons(a: string, b: string, c: string)
    requires NoChar(a, ':')
    ensures ParseConnectTarget(a + ":" + b + ":" + c) == None
  {
    var t := a + ":" + b + ":" + c;
    var rest := b + ":" + c;
    assert t == a + [':'] + rest;
    FindAfterPrefix(a, ':', rest);
    SplitAtFirst(t, |a|, ":");
    assert t[|a| + 1..] == rest;
    OccursAtOne(rest, ':', |b|);
    assert |Split(rest, ":")| >= 2;
  }

  /** What `handle_connect` decides to do. */
  datatype ConnectPlan =
    | Intercept(original: string, dialHost: string, port: int) // `do_mitm`
    | Tunnel(host: string, port: int)                          // `do_tunnel`
    | Refuse                                                   // 502 from `handle_connect`

  /** Interception happens exactly when the resolver maps the host to something else. */
  function PlanConnect(rules: Rules, target: string): (plan: ConnectPlan)
    ensures plan.Refuse? <==> ParseConnectTarget(target).None?
    ensures plan.Intercept? ==> (plan.original == ParseConnectTarget(target).value.host
                                 && plan.dialHost == Resolve(rules, plan.original) && plan.dialHost != plan.original
                                 && plan.port == ParseConnectTarget(target).value.port)
    ensures plan.Tunnel? ==> (ParseConnectTarget(target) == Some(Target(plan.host, plan.port))
                              && Resolve(rules, plan.host) == plan.host)
  {
    match ParseConnectTarget(target)
    case None => Refuse
    case Some(t) =>
      var mapped := Resolve(rules, t.host);
      if mapped != t.host then Intercept(t.host, mapped, t.port) else Tunnel(t.host, t.port)
  }

  /**
   * For a parsed host (which holds no ':'), interception means a rule
   * matched and its value differs from the host; the dial then goes to that
   * value.
   */
  lemma InterceptIffMapped(rules: Rules, target: string)
    requires ParseConnectTarget(target).Some?
    ensures var h := ParseConnectTarget(target).value.host;
      PlanConnect(rules, target).Intercept?
      <==> ResolveIn(rules, h).Some? && ResolveIn(rules, h).value != h
  {
    var h := ParseConnectTarget(target).value.host;
    assert HostPart(h) == h;
  }

  /** `'temp_' + host.replace('.', '_') + ext`, the temporary certificate and key names. */
  function TempName(host: string, ext: string): (name: string)
    ensures |name| == 5 + |host| + |ext|
    ensures StartsWith(name, "temp_") && EndsWith(name, ext)
  {
    var name := "temp_" + ReplaceChar(host, '.', '_') + ext;
    assert name[..5] == "temp_";
    assert name[|name| - |ext|..] == ext;
    name
  }

  function CertName(host: string): string
  {
    TempName(host, ".crt")
  }

  function KeyName(host: string): string
  {
    TempName(host, ".key")
  }

  /** A host's certificate and key files never share a name. */
  lemma CertKeyDistinct(host: string)
    ensures CertName(host) != KeyName(host)
  {
    var i := |CertName(host)| - 3;
    assert CertName(host)[i] == 'c' && KeyName(host)[i] == 'k';
  }

  /** Hosts that differ only in '.' versus '_' share their temporary files. */
  lemma TempNameCollision(x: string, y: string, ext: string)
    requires |x| == |y|
    requires forall i :: 0 <= i < |x| ==> x[i] == y[i] || (x[i] in "._" && y[i] in "._")
    ensures TempName(x, ext) == TempName(y, ext)
  {
    assert ReplaceChar(x, '.', '_') == ReplaceChar(y, '.', '_');
  }

  /** The DNS names of the forged leaf: the domain, and a wildcard from its first '.' on. */
  function SanList(domain: string): (sans: seq<string>)
    ensures |sans| >= 1 && sans[0] == domain
    ensures |sans| == 2 <==> Contains(domain, ".")
    ensures |sans| <= 2
  {
    match Find(domain, ".")
    case None => [domain]
    case Some(i) => [domain, "*" + domain[i..]]
  }

  /**
   * `first.rest` gets the extra name `*.rest`: `api.example.com` gives
   * `*.example.com`, and `example.com` gives `*.com`.
   */
  lemma SanWildcard(first: string, rest: string)
    requires NoChar(first, '.')
    ensures SanList(first + "." + rest) == [first + "." + rest, "*." + rest]
  {
    var d := first + "." + rest;
    assert d == first + ['.'] + rest;
    FindAfterPrefix(first, '.', rest);
    assert d[|first|..] == "." + rest;
    assert "*" + ("." + rest) == "*." + rest;
  }

  /** A name without '.' gets only itself. */
  lemma SanNoDot(domain: string)
    requires NoChar(domain, '.')
    ensures SanList(domain) == [domain]
  {
    NoCharContains(domain, '.');
  }

  /** One step of a session that can raise. */
  datatype Step =
    | Connect(host: string, port: int)   // `socket.connect((host, port))`
    | UpstreamTls(serverName: string)    // `wrap_socket(target, server_hostname=...)`
    | IssueLeaf(domain: string)          // `generate_cert_for_domain`
    | WriteFile(name: string)            // `write_bytes`
    | LoadChain                          // `load_cert_chain`
    | SendEstablished                    // `sendall(b'HTTP/1.1 200 Connection Established...')`
    | ClientTls                          // `wrap_socket(client, server_side=True)`

  /** The steps of `do_mitm`, in order. */
  function MitmSteps(original: string, dialHost: string, port: int): seq<Step>
  {
    [Connect(dialHost, port), UpstreamTls(dialHost), IssueLeaf(original),
     WriteFile(CertName(original)), WriteFile(KeyName(original)),
     LoadChain, SendEstablished, ClientTls]
  }

  /** The steps of `do_tunnel`: TLS to the server only for port 443. */
  function TunnelSteps(host: string, port: int): seq<Step>
  {
    [Connect(host, port)] + (if port == 443 then [UpstreamTls(host)] else []) + [SendEstablished]
  }

  /** A reply that reaches the client. */
  datatype Reply = Established | BadGatewayReply

  /**
   * How a session ends when its first `ok` steps succeed and the next one
   * (if any) raises: the replies to the client, whether the relay ran, and
   * the files left.
   */
  datatype SessionEnd = SessionEnd(replies: seq<Reply>, relayed: bool, files: set<string>)

  function Min(a: nat, b: nat): nat
  {
    if a < b then a else b
  }

  /**
   * The replies the client receives: the 200 once its `sendall` succeeded,
   * then a 502 if a step raised. A failed client handshake is the exception:
   * `wrap_socket` has detached the client socket before handshaking and closes
   * the wrapper when the handshake raises, so the 502's `sendall` raises on a
   * closed descriptor and the bare `except` swallows it.
   */
  function Replies(steps: seq<Step>, ok: nat): (rs: seq<Reply>)
    ensures (Established in rs) <==> SendEstablished in steps[..Min(ok, |steps|)]
    ensures (BadGatewayReply in rs) <==> ok < |steps| && steps[ok] != ClientTls
  {
    (if SendEstablished in steps[..Min(ok, |steps|)] then [Established] else [])
    + (if ok < |steps| && steps[ok] != ClientTls then [BadGatewayReply] else [])
  }

  /**
   * `do_mitm` with `files` the temporary files present at its start; the
   * `finally` block removes both names once they have been computed, which
   * happens right after the leaf certificate is issued.
   */
  function MitmSession(original: string, dialHost: string, port: int, ok: nat, files: set<string>): SessionEnd
  {
    var steps := MitmSteps(original, dialHost, port);
    SessionEnd(Replies(steps, ok), ok >= |steps|,
               if ok > 2 then files - {CertName(original), KeyName(original)} else files)
  }

  /** `do_tunnel`; it touches no file. */
  function TunnelSession(host: string, port: int, ok: nat, files: set<string>): SessionEnd
  {
    var steps := TunnelSteps(host, port);
    SessionEnd(Replies(steps, ok), ok >= |steps|, files)
  }

  /** `handle_connect` end to end. */
  function ConnectSession(rules: Rules, target: string, ok: nat, files: set<string>): SessionEnd
  {
    match PlanConnect(rules, target)
    case Refuse => SessionEnd([BadGatewayReply], false, files)
    case Intercept(o, d, p) => MitmSession(o, d, p, ok, files)
    case Tunnel(h, p) => TunnelSession(h, p, ok, files)
  }

  /**
   * The temporary certificate and key never outlive an interception: a
   * session that wrote them has removed them when it ends, and one that
   * failed earlier never created them.
   */
  lemma MitmLeavesNoTempFiles(original: string, dialHost: string, port: int, ok: nat, files: set<string>)
    ensures var e := MitmSession(original, dialHost, port, ok, files);
      e.files <= files
      && (CertName(original) in e.files ==> ok <= 2 && CertName(original) in files)
      && (KeyName(original) in e.files ==> ok <= 2 && KeyName(original) in files)
      && forall f :: f in files && f !in e.files ==> f == CertName(original) || f == KeyName(original)
  {
  }

  /**
   * The client hears `200 Connection Established` exactly when that write
   * succeeded, and the client side is switched to TLS only after it. Every
   * failure but the client handshake is followed by a 502 on the same socket;
   * after a failed handshake the client has the 200 and then a closed
   * connection.
   */
  lemma MitmReplyOrder(original: string, dialHost: string, port: int, ok: nat, files: set<string>)
    ensures var e := MitmSession(original, dialHost, port, ok, files);
      && (Established in e.replies <==> ok > 6)
      && (e.relayed <==> ok >= 8)
      && (e.relayed ==> e.replies == [Established])
      && (!e.relayed && ok != 7 ==> e.replies[|e.replies| - 1] == BadGatewayReply)
      && (ok == 7 ==> e.replies == [Established])
  {
    var steps := MitmSteps(original, dialHost, port);
    var k := Min(ok, |steps|);
    assert steps[6] == SendEstablished;
    assert forall i :: 0 <= i < 6 ==> steps[i] != SendEstablished;
    if k > 6 {
      assert steps[..k][6] == SendEstablished;
    } else {
      assert forall i :: 0 <= i < k ==> steps[..k][i] == steps[i];
    }
  }

  /**
   * A tunnel never issues a certificate nor writes a file, and wraps the
   * upstream connection in TLS exactly when the port is 443.
   */
  lemma TunnelShape(host: string, port: int)
    ensures UpstreamTls(host) in TunnelSteps(host, port) <==> port == 443
    ensures forall s :: s in TunnelSteps(host, port) ==> !s.IssueLeaf? && !s.WriteFile?
  {
    var steps := TunnelSteps(host, port);
    if port == 443 {
      assert steps == [Connect(host, port), UpstreamTls(host), SendEstablished];
    } else {
      assert steps == [Connect(host, port), SendEstablished];
    }
  }

  /** A tunnel leaves the files alone, and one that reaches the relay has only answered 200. */
  lemma TunnelEnd(host: string, port: int, ok: nat, files: set<string>)
    ensures TunnelSession(host, port, ok, files).files == files
    ensures TunnelSession(host, port, ok, files).relayed <==> ok >= |TunnelSteps(host, port)|
    ensures TunnelSession(host, port, ok, files).relayed ==> TunnelSession(host, port, ok, files).replies == [Established]
  {
    var steps := TunnelSteps(host, port);
    if ok >= |steps| {
      assert steps[..Min(ok, |steps|)] == steps;
      assert SendEstablished == steps[|steps| - 1];
    }
  }
}
