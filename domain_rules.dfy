/**
 * The host rewriting of the MITM proxy (`MITMProxyServer.get_target_domain`):
 * the port and any scheme are cut from the requested host, and the rule table
 * is scanned in insertion order for the first key the host equals or ends
 * with; that rule's value, without its scheme, replaces the host.
 */
module DomainRules {
  import opened Base
  import opened PyStr
  import opened OrderedDict
  import opened ProxyConfig

  /** `x.split('://')[-1] if '://' in x else x`, applied to rule keys and values. */
  function StripScheme(s: string): (r: string)
    ensures !Contains(r, "://") && EndsWith(s, r)
    ensures !Contains(s, "://") ==> r == s
  {
    if Contains(s, "://") then LastPiece(s, "://") else s
  }

  /** `d.split('://')[1]`, written so that it is defined for every `d`. */
  function SecondSchemePiece(d: string): string
  {
    var parts := Split(d, "://");
    if |parts| >= 2 then parts[1] else d
  }

  /**
   * The host the resolver compares: `original.split(':')[0]`, then the part
   * after `'://'` when that remains. Since the first step already removed
   * every ':', the second never applies: the result is the text before the
   * first ':'.
   */
  function HostPart(original: string): (d: string)
    ensures !Contains(d, ":")
    ensures StartsWith(original, d)
    ensures Contains(original, ":") ==> OccursAt(original, ":", |d|)
    ensures !Contains(original, ":") ==> d == original
  {
    var d := Split(original, ":")[0];
    NoColonNoSchemeSep(d);
    HostPartIsPrefix(original);
    if Contains(d, "://") then SecondSchemePiece(d) else d
  }

  /** Text with no ':' cannot contain `'://'`. */
  lemma NoColonNoSchemeSep(s: string)
    requires !Contains(s, ":")
    ensures !Contains(s, "://")
  {
    forall i | 0 <= i <= |s| - 3 ensures !OccursAt(s, "://", i) {
      assert !OccursAt(s, ":", i);
      assert s[i..i + 1][0] == s[i..i + 3][0];
    }
  }

  /** The first piece of a split on ':' is what stands before the first ':'. */
  lemma HostPartIsPrefix(original: string)
    ensures var d := Split(original, ":")[0];
      StartsWith(original, d) && (Contains(original, ":") ==> OccursAt(original, ":", |d|))
  {
    var f := Find(original, ":");
    if f.Some? {
      assert Split(original, ":")[0] == original[..f.value];
    }
  }

  /** The rule test: the host equals the scheme-stripped key, or ends with it. */
  predicate KeyMatches(domain: string, key: string)
  {
    var kd := StripScheme(key);
    domain == kd || EndsWith(domain, kd)
  }

  /** The first rule (in insertion order) whose key matches, as the scheme-stripped value. */
  function ResolveIn(rules: Rules, domain: string): (r: Option<string>)
    ensures r.None? <==> forall i :: 0 <= i < |rules| ==> !KeyMatches(domain, rules[i].0)
    ensures r.Some? ==> !Contains(r.value, "://")
  {
    if rules == [] then None
    else if KeyMatches(domain, rules[0].0) then Some(StripScheme(rules[0].1))
    else
      var r := ResolveIn(rules[1..], domain);
      assert forall i :: 1 <= i < |rules| ==> rules[i] == rules[1..][i - 1];
      r
  }

  /** One step of the scan: rule `i` wins if it matches, else the scan goes on after it. */
  lemma ResolveInStep(rules: Rules, domain: string, i: nat)
    requires i < |rules|
    ensures ResolveIn(rules[i..], domain)
      == if KeyMatches(domain, rules[i].0) then Some(StripScheme(rules[i].1)) else ResolveIn(rules[i + 1..], domain)
  {
    assert rules[i..][0] == rules[i];
    assert rules[i..][1..] == rules[i + 1..];
  }

  /** `get_target_domain(original)`: the mapped host, or the host itself when no rule matches. */
  function Resolve(rules: Rules, original: string): string
  {
    var d := HostPart(original);
    match ResolveIn(rules, d)
    case Some(t) => t
    case None => d
  }

  /**
   * With no matching rule the result is the input cut at its first ':'; it
   * holds no ':', and an input without ':' comes back unchanged.
   */
  lemma ResolveUnmatched(rules: Rules, original: string)
    requires forall i :: 0 <= i < |rules| ==> !KeyMatches(HostPart(original), rules[i].0)
    ensures Resolve(rules, original) == HostPart(original)
    ensures !Contains(Resolve(rules, original), ":")
    ensures StartsWith(original, Resolve(rules, original))
    ensures Contains(original, ":") ==> OccursAt(original, ":", |Resolve(rules, original)|)
    ensures !Contains(original, ":") ==> Resolve(rules, original) == original
  {
  }

  /**
   * The first matching rule wins: when rule `i` matches and no earlier rule
   * does, the result is rule `i`'s value without its scheme, whatever the
   * later rules say.
   */
  lemma {:induction false} ResolveFirstMatch(rules: Rules, domain: string, i: nat)
    requires i < |rules| && KeyMatches(domain, rules[i].0)
    requires forall j :: 0 <= j < i ==> !KeyMatches(domain, rules[j].0)
    ensures ResolveIn(rules, domain) == Some(StripScheme(rules[i].1))
  {
    if i > 0 {
      var tail := rules[1..];
      assert tail[i - 1] == rules[i];
      forall j | 0 <= j < i - 1 ensures !KeyMatches(domain, tail[j].0) {
        assert tail[j] == rules[j + 1];
      }
      ResolveFirstMatch(tail, domain, i - 1);
      assert ResolveIn(rules, domain) == ResolveIn(tail, domain);
    }
  }

  /** Whatever the resolver returns comes from the first rule that matched. */
  lemma {:induction false} ResolveFromRule(rules: Rules, domain: string)
    requires ResolveIn(rules, domain).Some?
    ensures exists i :: (0 <= i < |rules| && KeyMatches(domain, rules[i].0)
                         && (forall j :: 0 <= j < i ==> !KeyMatches(domain, rules[j].0))
                         && ResolveIn(rules, domain).value == StripScheme(rules[i].1))
  {
    if KeyMatches(domain, rules[0].0) {
      assert KeyMatches(domain, rules[0].0) && ResolveIn(rules, domain).value == StripScheme(rules[0].1);
    } else {
      var tail := rules[1..];
      ResolveFromRule(tail, domain);
      var i :| 0 <= i < |tail| && KeyMatches(domain, tail[i].0)
        && (forall j :: 0 <= j < i ==> !KeyMatches(domain, tail[j].0))
        && ResolveIn(tail, domain).value == StripScheme(tail[i].1);
      assert tail[i] == rules[i + 1];
      forall j | 0 <= j < i + 1 ensures !KeyMatches(domain, rules[j].0) {
        if j > 0 {
          assert rules[j] == tail[j - 1];
        }
      }
    }
  }

  /**
   * Matching is a plain suffix test, not a label test: any host that ends
   * with the key's text matches, e.g. `notexample.com` matches the key
   * `example.com`.
   */
  lemma SuffixOverMatch(prefix: string, key: string)
    ensures KeyMatches(prefix + StripScheme(key), key)
  {
    var kd := StripScheme(key);
    assert (prefix + kd)[|prefix + kd| - |kd|..] == kd;
  }

  /** A key that is only a scheme (`'https://'`) strips to the empty text and matches every host. */
  lemma EmptyKeyMatchesAll(domain: string, key: string)
    requires StripScheme(key) == []
    ensures KeyMatches(domain, key)
  {
    assert domain[|domain|..] == [];
  }
}
