/**
 * The part of Python's `urllib.parse` the MITM proxy depends on, as CPython
 * 3.11+ implements it for ordinary host names: `urlsplit`'s scheme and
 * authority (`netloc`) extraction, and the `hostname` and `port` properties
 * that `forward_http` dials.
 */
module Url {
  import opened Base
  import opened PyStr

  predicate IsAsciiLetter(c: char)
  {
    'a' <= c <= 'z' || 'A' <= c <= 'Z'
  }

  /** `urllib.parse.scheme_chars`. */
  predicate IsSchemeChar(c: char)
  {
    IsAsciiLetter(c) || IsDigit(c) || c == '+' || c == '-' || c == '.'
  }

  /** The characters that end an authority. */
  predicate IsDelim(c: char)
  {
    c == '/' || c == '?' || c == '#'
  }

  /** No element of `s` equals `c`. */
  predicate NoChar<T(==)>(s: seq<T>, c: T)
  {
    forall i :: 0 <= i < |s| ==> s[i] != c
  }

  /** A one-element pattern occurs exactly where that element stands. */
  lemma OccursAtOne<T>(s: seq<T>, c: T, j: int)
    ensures OccursAt(s, [c], j) <==> 0 <= j < |s| && s[j] == c
  {
    if 0 <= j < |s| {
      assert s[j..j + 1] == [s[j]];
    }
  }

  /** `c in s` for a single character is the absence test of `NoChar`. */
  lemma NoCharContains<T>(s: seq<T>, c: T)
    ensures !Contains(s, [c]) <==> NoChar(s, c)
  {
    forall j | 0 <= j <= |s| - 1 {
      OccursAtOne(s, c, j);
    }
  }

  /** In `a + [c] + b` with no `c` in `a`, the first `c` is the one after `a`. */
  lemma FindAfterPrefix<T>(a: seq<T>, c: T, b: seq<T>)
    requires NoChar(a, c)
    ensures Find(a + [c] + b, [c]) == Some(|a|)
    ensures Split(a + [c] + b, [c])[0] == a
    ensures Contains(a + [c] + b, [c]) && AfterFirst(a + [c] + b, [c]) == b
  {
    var s := a + [c] + b;
    OccursAtOne(s, c, |a|);
    var f := Find(s, [c]);
    assert f.Some?;
    OccursAtOne(s, c, f.value);
    assert f.value == |a|;
    assert s[..|a|] == a;
    assert s[|a| + 1..] == b;
  }

  /** After a prefix without `c`, the first piece is that prefix and the rest splits on. */
  lemma SplitAfterPrefix<T>(a: seq<T>, c: T, b: seq<T>)
    requires NoChar(a, c)
    ensures Split(a + [c] + b, [c]) == [a] + Split(b, [c])
  {
    var s := a + [c] + b;
    FindAfterPrefix(a, c, b);
    SplitAtFirst(s, |a|, [c]);
    assert s[..|a|] == a && s[|a| + 1..] == b;
  }

  /** With no `c` on either side, `a + [c] + b` splits into exactly `a` and `b`. */
  lemma SplitAroundOne<T>(a: seq<T>, c: T, b: seq<T>)
    requires NoChar(a, c) && NoChar(b, c)
    ensures Split(a + [c] + b, [c]) == [a, b]
  {
    SplitAfterPrefix(a, c, b);
    NoCharContains(b, c);
  }

  /** The index of the ':' that ends a scheme, as `urlsplit` recognises one. */
  function SchemeEnd(url: string): (r: Option<nat>)
    ensures r.Some? ==> 0 < r.value < |url| && url[r.value] == ':' && IsAsciiLetter(url[0])
    ensures r.Some? ==> forall j :: 0 <= j < r.value ==> IsSchemeChar(url[j])
  {
    match Find(url, ":")
    case None => None
    case Some(i) =>
      OccursAtOne(url, ':', i);
      if i > 0 && IsAsciiLetter(url[0]) && (forall j :: 0 <= j < i ==> IsSchemeChar(url[j])) then Some(i) else None
  }

  /** What `urlsplit` goes on to parse after the scheme and its ':'. */
  function AfterScheme(url: string): (rest: string)
    ensures EndsWith(url, rest)
  {
    match SchemeEnd(url)
    case None => url
    case Some(i) => url[i + 1..]
  }

  /** The first index at or after `i` holding '/', '?' or '#', or `|s|`. */
  function DelimFrom(s: string, i: nat): (r: nat)
    requires i <= |s|
    ensures i <= r <= |s|
    ensures r < |s| ==> IsDelim(s[r])
    ensures forall j :: i <= j < r ==> !IsDelim(s[j])
    decreases |s| - i
  {
    if i == |s| then |s| else if IsDelim(s[i]) then i else DelimFrom(s, i + 1)
  }

  /** `urlsplit(url).netloc`: the text after `//` up to the first '/', '?' or '#'. */
  function Netloc(url: string): (n: string)
    ensures forall j :: 0 <= j < |n| ==> !IsDelim(n[j])
  {
    var rest := AfterScheme(url);
    if StartsWith(rest, "//") then rest[2..DelimFrom(rest, 2)] else ""
  }

  /** Everything after the authority: path, query and fragment with their delimiters. */
  function AfterNetloc(url: string): (tail: string)
    ensures EndsWith(url, tail)
    ensures tail == [] || IsDelim(tail[0]) || Netloc(url) == []
  {
    var rest := AfterScheme(url);
    if StartsWith(rest, "//") then
      SuffixOfSuffix(url, rest, rest[DelimFrom(rest, 2)..]);
      rest[DelimFrom(rest, 2)..]
    else rest
  }

  /** `netloc.rpartition('@')[2]`: the authority without its user information. */
  function HostInfo(netloc: string): (hi: string)
    ensures NoChar(hi, '@') && EndsWith(netloc, hi)
  {
    NoCharContains(LastPiece(netloc, "@"), '@');
    LastPiece(netloc, "@")
  }

  /** The host as `.hostname` reports it: lowercased up to a '%' zone suffix. */
  function LowerHost(h: string): (r: string)
    ensures |r| == |h|
  {
    match Find(h, "%")
    case None => AsciiLower(h)
    case Some(i) => AsciiLower(h[..i]) + h[i..]
  }

  /** `urlsplit(url).hostname` for the authority `netloc`: `None` when the host part is empty. */
  function HostName(netloc: string): (r: Option<string>)
    ensures r.Some? ==> r.value != []
  {
    var h := Split(HostInfo(netloc), ":")[0];
    if h == [] then None else Some(LowerHost(h))
  }

  /** The outcome of reading `.port`. */
  datatype PortValue = NoPort | PortNumber(n: nat) | BadPort

  /**
   * `urlsplit(url).port`: no port when nothing follows a ':', the number when
   * the text after the first ':' is ASCII digits up to 65535, and a
   * `ValueError` otherwise.
   */
  function Port(netloc: string): (r: PortValue)
    ensures r.PortNumber? ==> r.n <= 65535
  {
    var hi := HostInfo(netloc);
    if !Contains(hi, ":") then NoPort
    else
      var p := AfterFirst(hi, ":");
      if p == [] then NoPort
      else if !(forall i :: 0 <= i < |p| ==> IsDigit(p[i])) then BadPort
      else if DigitsValue(p) > 65535 then BadPort
      else PortNumber(DigitsValue(p))
  }

  /** A TCP destination. */
  datatype Dial = Dial(host: string, port: nat)

  /**
   * `(parsed.hostname, parsed.port or 80)` as `forward_http` computes it;
   * `None` when it raises (bad port) or when the host is missing (the socket
   * refuses `None`).
   */
  function DialTarget(url: string): (r: Option<Dial>)
    ensures r.Some? ==> r.value.host != [] && 0 < r.value.port <= 65535
  {
    var n := Netloc(url);
    match HostName(n)
    case None => None
    case Some(h) =>
      match Port(n)
      case BadPort => None
      case NoPort => Some(Dial(h, 80))
      case PortNumber(p) => Some(Dial(h, if p == 0 then 80 else p))
  }

  /** A URL starting `http:` has the scheme `http`; `urlsplit` goes on with what follows the ':'. */
  lemma SchemeOfHttp(x: string)
    ensures AfterScheme("http:" + x) == x
  {
    var url := "http:" + x;
    assert url == "http" + [':'] + x;
    FindAfterPrefix("http", ':', x);
    assert SchemeEnd(url) == Some(4);
    assert url[5..] == x;
  }

  /** In `"//" + h + tail` the authority ends where `tail` starts. */
  lemma {:induction false} DelimAfterHost(h: string, tail: string)
    requires forall j :: 0 <= j < |h| ==> !IsDelim(h[j])
    requires tail == [] || IsDelim(tail[0])
    ensures DelimFrom("//" + h + tail, 2) == 2 + |h|
  {
    var rest := "//" + h + tail;
    var d := DelimFrom(rest, 2);
    assert forall j :: 2 <= j < 2 + |h| ==> rest[j] == h[j - 2];
    assert 2 + |h| < |rest| ==> rest[2 + |h|] == tail[0];
  }

  /** `"http://" + h + tail` is split back into the authority `h` and the rest `tail`. */
  lemma NetlocOfHttp(h: string, tail: string)
    requires forall j :: 0 <= j < |h| ==> !IsDelim(h[j])
    requires tail == [] || IsDelim(tail[0])
    ensures Netloc("http://" + h + tail) == h
    ensures AfterNetloc("http://" + h + tail) == tail
  {
    var rest := "//" + h + tail;
    var url := "http://" + h + tail;
    assert url == "http:" + rest;
    SchemeOfHttp(rest);
    assert AfterScheme(url) == rest;
    assert StartsWith(rest, "//") by {
      assert rest[..2] == "//";
    }
    DelimAfterHost(h, tail);
    assert rest[2..2 + |h|] == h;
    assert rest[2 + |h|..] == tail;
  }

  /** The characters of `h:p`: those of `h`, the ':', then the digits of `p`. */
  lemma AuthorityChar(h: string, p: nat, j: int)
    requires 0 <= j < |h + ":" + NatToString(p)|
    ensures var n := h + ":" + NatToString(p);
      (j < |h| ==> n[j] == h[j]) && (j == |h| ==> n[j] == ':') && (j > |h| ==> IsDigit(n[j]))
  {
    var ps := NatToString(p);
    if j > |h| {
      assert (h + ":" + ps)[j] == ps[j - |h| - 1];
    }
  }

  /** A bare host has no ':' or '@': `h` is its own host name, with no port. */
  lemma HostAlone(h: string)
    requires h != [] && NoChar(h, ':') && NoChar(h, '@')
    ensures HostName(h) == Some(LowerHost(h)) && Port(h) == NoPort
  {
    NoCharContains(h, '@');
    NoCharContains(h, ':');
    assert HostInfo(h) == h;
  }

  /** The authority `h:p` has the host name `h` and the port `p`. */
  lemma HostWithPort(h: string, p: nat)
    requires h != [] && NoChar(h, ':') && NoChar(h, '@')
    requires p <= 65535
    ensures HostName(h + ":" + NatToString(p)) == Some(LowerHost(h))
    ensures Port(h + ":" + NatToString(p)) == PortNumber(p)
  {
    var ps := NatToString(p);
    var n := h + ":" + ps;
    assert NoChar(n, '@') by {
      forall j | 0 <= j < |n| ensures n[j] != '@' {
        AuthorityChar(h, p, j);
      }
    }
    assert HostInfo(n) == n by {
      NoCharContains(n, '@');
    }
    assert n == h + [':'] + ps;
    FindAfterPrefix(h, ':', ps);
    DigitsValueOfNatToString(p);
  }

  /** `http://h/...` is dialed at `(h, 80)`. */
  lemma DialOfBareHost(h: string, tail: string)
    requires h != [] && NoChar(h, ':') && NoChar(h, '@')
    requires forall j :: 0 <= j < |h| ==> !IsDelim(h[j])
    requires tail == [] || IsDelim(tail[0])
    ensures DialTarget("http://" + h + tail) == Some(Dial(LowerHost(h), 80))
  {
    NetlocOfHttp(h, tail);
    HostAlone(h);
  }

  /** `http://h:p/...` is dialed at `(h, p)`. */
  lemma DialOfHostWithPort(h: string, p: nat, tail: string)
    requires h != [] && NoChar(h, ':') && NoChar(h, '@')
    requires forall j :: 0 <= j < |h| ==> !IsDelim(h[j])
    requires 0 < p <= 65535
    requires tail == [] || IsDelim(tail[0])
    ensures DialTarget("http://" + (h + ":" + NatToString(p)) + tail) == Some(Dial(LowerHost(h), p))
  {
    var n := h + ":" + NatToString(p);
    forall j | 0 <= j < |n| ensures !IsDelim(n[j]) {
      AuthorityChar(h, p, j);
    }
    NetlocOfHttp(n, tail);
    HostWithPort(h, p);
  }

  /** `http://h:p/...` is dialed at `(h, p)`, and `http://h/...` at `(h, 80)`. */
  lemma DialOfHttp(h: string, p: nat, tail: string)
    requires h != [] && NoChar(h, ':') && NoChar(h, '@')
    requires forall j :: 0 <= j < |h| ==> !IsDelim(h[j])
    requires 0 < p <= 65535
    requires tail == [] || IsDelim(tail[0])
    ensures DialTarget("http://" + h + tail) == Some(Dial(LowerHost(h), 80))
    ensures DialTarget("http://" + (h + ":" + NatToString(p)) + tail) == Some(Dial(LowerHost(h), p))
  {
    DialOfBareHost(h, tail);
    DialOfHostWithPort(h, p, tail);
  }
}
