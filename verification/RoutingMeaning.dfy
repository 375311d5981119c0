/** What the routing rules mean: each matcher in terms of the destination alone, and the scan as a
    whole (src/client_proxy_selector.rs). */
module RoutingMeaning {
  import opened Common
  import opened RoutingRules

  // ----- names

  /** The domain itself or a name below it. */
  ghost predicate Within(domain: string, hostname: string) {
    hostname == domain || exists prefix: string :: hostname == prefix + "." + domain
  }

  lemma MatchesDomainMeans(domain: string, hostname: string)
    ensures MatchesDomain(domain, hostname) <==> Within(domain, hostname)
  {
    if MatchesDomain(domain, hostname) && |hostname| != |domain| {
      var cut := |hostname| - |domain| - 1;
      assert hostname == hostname[..cut] + "." + domain;
    }
    if Within(domain, hostname) && hostname != domain {
      var prefix: string :| hostname == prefix + "." + domain;
      assert hostname[|prefix| + 1..] == domain;
    }
  }

  ghost predicate Occurs(s: string, t: string) {
    exists before: string, after: string :: s == before + t + after
  }

  lemma {:induction false} ContainsMeans(s: string, t: string)
    ensures Contains(s, t) <==> Occurs(s, t)
  {
    if |t| <= |s| {
      if s[..|t|] == t {
        assert s == "" + t + s[|t|..];
      }
      if s != [] {
        ContainsMeans(s[1..], t);
        OccursLater(s, t);
      }
    }
  }

  /** A text occurs at the front or behind the first character. */
  lemma OccursLater(s: string, t: string)
    requires s != []
    ensures Occurs(s, t) <==> t <= s || Occurs(s[1..], t)
  {
    if Occurs(s, t) && !(t <= s) {
      var before: string, after: string :| s == before + t + after;
      assert before != "";
      assert s[1..] == before[1..] + t + after;
    }
    if Occurs(s[1..], t) {
      var before: string, after: string :| s[1..] == before + t + after;
      assert s == ([s[0]] + before) + t + after;
    }
    if t <= s {
      assert s == "" + t + s[|t|..];
    }
  }

  predicate SameLetter(c: char, d: char) {
    || c == d
    || ('A' <= c <= 'Z' && d as int == c as int + 32)
    || ('A' <= d <= 'Z' && c as int == d as int + 32)
  }

  /** Equal but for the case of ASCII letters. */
  ghost predicate SameName(s: string, t: string) {
    |s| == |t| && forall i :: 0 <= i < |s| ==> SameLetter(s[i], t[i])
  }

  lemma LowerMeans(s: string, t: string)
    ensures Lower(s) == Lower(t) <==> SameName(s, t)
  {
    if Lower(s) == Lower(t) {
      forall i | 0 <= i < |s| ensures SameLetter(s[i], t[i]) {
        assert Lower(s)[i] == Lower(t)[i];
        LowerCharMeans(s[i], t[i]);
      }
    }
    if SameName(s, t) {
      forall i | 0 <= i < |s| ensures LowerChar(s[i]) == LowerChar(t[i]) {
        LowerCharMeans(s[i], t[i]);
      }
    }
  }

  lemma LowerCharMeans(c: char, d: char)
    ensures LowerChar(c) == LowerChar(d) <==> SameLetter(c, d)
  {
    LowerCharValue(c);
    LowerCharValue(d);
  }

  lemma LowerCharValue(c: char)
    ensures LowerChar(c) as int == if 'A' <= c <= 'Z' then c as int + 32 else c as int
  {
  }

  // ----- addresses

  /** The two addresses agree in every bit the netmask has. */
  ghost predicate SameNetwork(a: Ip, b: Ip, netmask: Ip) {
    forall i :: 0 <= i < 128 && netmask[i] ==> a[i] == b[i]
  }

  lemma MasksMeans(rule: Ip, ip: Ip, netmask: Ip)
    ensures Masks(rule, netmask, And(ip, netmask)) <==> SameNetwork(rule, ip, netmask)
  {
    if Masks(rule, netmask, And(ip, netmask)) {
      forall i | 0 <= i < 128 && netmask[i] ensures rule[i] == ip[i] {
        assert And(rule, netmask)[i] == And(ip, netmask)[i];
      }
    }
    if SameNetwork(rule, ip, netmask) {
      assert And(rule, netmask) == And(ip, netmask);
    }
  }

  /** An IPv4 rule looks at the last 32 bits of an IPv4 destination. */
  lemma Ipv4Network(rule: Ip4, ip: Ip4, netmask: Ip)
    ensures SameNetwork(Mapped(rule), Mapped(ip), netmask) <==>
              forall i :: 0 <= i < 32 && netmask[96 + i] ==> rule[i] == ip[i]
  {
    var m, n := Mapped(rule), Mapped(ip);
    assert forall i :: 0 <= i < 96 ==> m[i] == n[i];
    assert forall i :: 96 <= i < 128 ==> m[i] == rule[i - 96] && n[i] == ip[i - 96];
    if SameNetwork(m, n, netmask) {
      forall i | 0 <= i < 32 && netmask[96 + i] ensures rule[i] == ip[i] {
        assert m[96 + i] == n[96 + i];
      }
    }
  }

  /** An IPv4 rule whose netmask has the first 96 bits meets IPv6 destinations of the mapped range
      ::ffff:0:0/96 only. */
  lemma Ipv4OnlyMapped(rule: Ip4, ip: Ip, netmask: Ip)
    requires forall i :: 0 <= i < 96 ==> netmask[i]
    ensures SameNetwork(Mapped(rule), ip, netmask) ==>
              forall i :: 0 <= i < 96 ==> (ip[i] <==> i >= 80)
  {
    var m := Mapped(rule);
    if SameNetwork(m, ip, netmask) {
      forall i | 0 <= i < 96 ensures ip[i] <==> i >= 80 {
        assert m[i] == ip[i];
      }
    }
  }

  // ----- matchers

  predicate PortFits(mask: Mask, q: Query) {
    mask.port == 0 || mask.port == q.location.port
  }

  /** Whether a mask needs the destination's address: not for "any address", nor to compare two
      names, nor for a name that is not to be resolved. */
  predicate NeedsAddress(mask: Mask, q: Query) {
    && PortFits(mask, q)
    && true in mask.netmask
    && (mask.address.Hostname? ==> q.resolveRules && !q.location.address.Hostname?)
  }

  ghost predicate Among(found: Option<seq<Socket>>, a: Ip) {
    found.Some? && exists i :: 0 <= i < |found.value| && found.value[i].ip == a
  }

  /** The addresses a mask's own address stands for. */
  ghost predicate Names(mask: Mask, a: Ip, world: World) {
    match mask.address
    case Ipv4(ip) => a == Mapped(ip)
    case Ipv6(ip) => a == ip
    case Hostname(_) => Among(world.resolve(NetLocation(mask.address, mask.port)), a)
  }

  ghost predicate MaskMeets(mask: Mask, q: Query, world: World) {
    && PortFits(mask, q)
    && (|| true !in mask.netmask
        || (mask.address.Hostname? && q.location.address.Hostname? &&
            Within(mask.address.name, q.location.address.name))
        || (NeedsAddress(mask, q) && q.ip.Some? &&
            exists a :: Names(mask, a, world) && SameNetwork(a, q.ip.value, mask.netmask)))
  }

  ghost predicate Meets(matcher: Matcher, q: Query, world: World) {
    var host := q.location.address;
    match matcher
    case Location(mask) => MaskMeets(mask, q, world)
    case DomainKeyword(keyword) => host.Hostname? && keyword != "" && Occurs(Lower(host.name), keyword)
    case DomainFull(domain) => host.Hostname? && domain != "" && SameName(host.name, domain)
    case DomainSuffix(suffix) => host.Hostname? && suffix != "" && Within(suffix, Lower(host.name))
    case DomainRegex(regex) => host.Hostname? && world.regexMatches(regex, host.name)
    case OnProtocol(protocol) => q.protocol == Some(protocol)
  }

  /** The matcher needs an address and there is none. */
  predicate Stuck(matcher: Matcher, q: Query) {
    matcher.Location? && NeedsAddress(matcher.mask, q) && q.ip.None?
  }

  lemma NoBitsMeans(netmask: Ip)
    ensures netmask == NoBits() <==> true !in netmask
  {
    if true !in netmask {
      assert forall i :: 0 <= i < 128 ==> netmask[i] == NoBits()[i];
    }
  }

  lemma MaskedMeans(mask: Mask, ip: Ip, world: World)
    ensures MaskedVerdict(mask, ip, world).Match? <==>
              exists a :: Names(mask, a, world) && SameNetwork(a, ip, mask.netmask)
    ensures MaskedVerdict(mask, ip, world) != Fatal
  {
    hide SameNetwork, Masks, And;
    var masked := And(ip, mask.netmask);
    match mask.address
    case Ipv4(a) =>
      MasksMeans(Mapped(a), ip, mask.netmask);
      assert Names(mask, Mapped(a), world);
    case Ipv6(a) =>
      MasksMeans(a, ip, mask.netmask);
      assert Names(mask, a, world);
    case Hostname(_) =>
      var found := world.resolve(NetLocation(mask.address, mask.port));
      if found.Some? {
        AnyMaskedMeans(mask, found.value, ip, world);
      }
  }

  lemma AnyMaskedMeans(mask: Mask, sockets: seq<Socket>, ip: Ip, world: World)
    requires mask.address.Hostname? && world.resolve(NetLocation(mask.address, mask.port)) == Some(sockets)
    ensures AnyMasked(sockets, mask.netmask, And(ip, mask.netmask)) <==>
              exists a :: Names(mask, a, world) && SameNetwork(a, ip, mask.netmask)
  {
    hide SameNetwork, Masks, And;
    if i :| 0 <= i < |sockets| && Masks(sockets[i].ip, mask.netmask, And(ip, mask.netmask)) {
      MasksMeans(sockets[i].ip, ip, mask.netmask);
      assert Names(mask, sockets[i].ip, world);
    }
    if a :| Names(mask, a, world) && SameNetwork(a, ip, mask.netmask) {
      var i :| 0 <= i < |sockets| && sockets[i].ip == a;
      MasksMeans(sockets[i].ip, ip, mask.netmask);
    }
  }

  lemma MaskMeans(mask: Mask, q: Query, world: World)
    ensures MaskVerdict(mask, q, world).Match? <==> MaskMeets(mask, q, world)
    ensures MaskVerdict(mask, q, world).Fatal? <==> NeedsAddress(mask, q) && q.ip.None?
  {
    hide MaskedVerdict, MatchesDomain, Within, Names, SameNetwork;
    NoBitsMeans(mask.netmask);
    if mask.address.Hostname? && q.location.address.Hostname? {
      MatchesDomainMeans(mask.address.name, q.location.address.name);
    } else if q.ip.Some? {
      MaskedMeans(mask, q.ip.value, world);
    }
  }

  /** Every matcher matches exactly the destinations it describes, and ends the scan exactly if it
      needs an address that cannot be had. */
  lemma VerdictMeans(matcher: Matcher, q: Query, world: World)
    ensures VerdictOf(matcher, q, world).Match? <==> Meets(matcher, q, world)
    ensures VerdictOf(matcher, q, world).Fatal? <==> Stuck(matcher, q)
  {
    hide MaskVerdict, MaskMeets, MatchesDomain, Contains, Lower, Within, Occurs, SameName;
    if matcher.Location? {
      MaskMeans(matcher.mask, q, world);
    } else if q.location.address.Hostname? {
      var name := q.location.address.name;
      match matcher
      case DomainKeyword(keyword) => ContainsMeans(Lower(name), keyword);
      case DomainFull(domain) => LowerMeans(name, domain);
      case DomainSuffix(suffix) => MatchesDomainMeans(suffix, Lower(name));
      case _ =>
    }
  }

  // ----- the scan

  ghost predicate Silent(matcher: Matcher, q: Query, world: World) {
    !Meets(matcher, q, world) && !Stuck(matcher, q)
  }

  ghost predicate SilentRule(rule: Rule, q: Query, world: World) {
    forall m :: 0 <= m < |rule.matchers| ==> Silent(rule.matchers[m], q, world)
  }

  /** Matcher `k` of rule `i` is the first that is met or stuck. */
  ghost predicate SpeaksFirst(rules: seq<Rule>, i: nat, k: nat, q: Query, world: World) {
    && i < |rules| && k < |rules[i].matchers|
    && !Silent(rules[i].matchers[k], q, world)
    && (forall m :: 0 <= m < k ==> Silent(rules[i].matchers[m], q, world))
    && forall r :: 0 <= r < i ==> SilentRule(rules[r], q, world)
  }

  lemma SpeakersAgree(rules: seq<Rule>, i: nat, k: nat, j: nat, m: nat, q: Query, world: World)
    requires SpeaksFirst(rules, i, k, q, world) && SpeaksFirst(rules, j, m, q, world)
    ensures i == j && k == m
  {
    hide Silent;
    assert i < j ==> SilentRule(rules[i], q, world);
    assert j < i ==> SilentRule(rules[j], q, world);
  }

  lemma SomeoneSpeaks(rules: seq<Rule>, q: Query, world: World) returns (i: nat, k: nat)
    ensures i == |rules| <==> Scan(rules, q, world) == Ok(None)
    ensures i == |rules| ==> forall r :: 0 <= r < |rules| ==> SilentRule(rules[r], q, world)
    ensures i != |rules| ==>
      && SpeaksFirst(rules, i, k, q, world)
      && (Scan(rules, q, world) == Ok(Some(i)) <==> Meets(rules[i].matchers[k], q, world))
      && (Scan(rules, q, world) == Err(CannotResolve) <==> Stuck(rules[i].matchers[k], q))
  {
    hide Scan, VerdictOf, Meets, Stuck;
    i, k := ScanIsFirstMatch(rules, q, world);
    forall matcher ensures Decisive(VerdictOf(matcher, q, world)) <==> !Silent(matcher, q, world) {
      VerdictMeans(matcher, q, world);
    }
    if i < |rules| {
      VerdictMeans(rules[i].matchers[k], q, world);
    }
  }

  /** The scan finds rule `i` exactly if a matcher of that rule is met and is the first to be met or
      stuck; it fails exactly if the first such matcher is stuck; it finds nothing exactly if no
      matcher is met or stuck. */
  lemma ScanMeans(rules: seq<Rule>, q: Query, world: World)
    ensures forall i: nat :: Scan(rules, q, world) == Ok(Some(i)) <==>
              exists k: nat :: SpeaksFirst(rules, i, k, q, world) && Meets(rules[i].matchers[k], q, world)
    ensures Scan(rules, q, world).Err? <==>
              exists i: nat, k: nat :: SpeaksFirst(rules, i, k, q, world) && Stuck(rules[i].matchers[k], q)
    ensures Scan(rules, q, world) == Ok(None) <==>
              forall r :: 0 <= r < |rules| ==> SilentRule(rules[r], q, world)
  {
    hide Scan, Meets, Stuck;
    var i, k := SomeoneSpeaks(rules, q, world);
    forall j: nat, m: nat | SpeaksFirst(rules, j, m, q, world)
      ensures i != |rules| && j == i && m == k
    {
      if i != |rules| {
        SpeakersAgree(rules, i, k, j, m, q, world);
      }
    }
    assert i != |rules| ==> SpeaksFirst(rules, i, k, q, world);
  }

  // ----- the address a destination is matched by

  ghost predicate ComesFirst(found: Option<seq<Socket>>, ip: Ip) {
    exists rest: seq<Socket>, port :: found == Some([Socket(ip, port)] + rest)
  }

  /** A destination is matched by the address it came with, or else by its own, or else by the first
      the resolver gives. */
  ghost predicate StandsFor(l: ResolvedLocation, ip: Ip, world: World) {
    if l.resolved.Some? then ip == l.resolved.value.ip
    else match l.location.address
      case Ipv4(own) => ip == Mapped(own)
      case Ipv6(own) => ip == own
      case Hostname(_) => ComesFirst(world.resolve(l.location), ip)
  }

  /** For every way a scan starts or goes on: the address it asks with is that of the destination. */
  lemma AskedAddress(l: ResolvedLocation, protocol: Option<Protocol>, resolveRules: bool, world: World, ip: Ip)
    ensures var known := if l.resolved.Some? then Some(l.resolved.value.ip) else None;
            Asked(l, known, protocol, resolveRules, world).ip == Some(ip) <==> StandsFor(l, ip, world)
  {
    if l.resolved.None? && l.location.address.Hostname? {
      var found := world.resolve(l.location);
      if found.Some? && found.value != [] {
        var first := found.value[0];
        assert found.value == [Socket(first.ip, first.port)] + found.value[1..];
      }
    }
  }
}
