/** The routing rules (src/client_proxy_selector.rs): which rule decides a destination.

    A matcher may need the destination's IP address; it is resolved when first needed and kept.
    The specification says what each matcher decides without keeping anything. */
module RoutingRules {
  import opened Common

  function Zeros(n: nat): seq<bool> {
    seq(n, _ => false)
  }

  /** The 128 bits of an IPv6 address, first bit first; IPv4 addresses are compared in their
      IPv6-mapped form. */
  type Ip = bits: seq<bool> | |bits| == 128 witness Zeros(128)

  type Ip4 = bits: seq<bool> | |bits| == 32 witness Zeros(32)

  datatype Address = Ipv4(ip4: Ip4) | Ipv6(ip6: Ip) | Hostname(name: string)

  datatype NetLocation = NetLocation(address: Address, port: nat)

  datatype Socket = Socket(ip: Ip, port: nat)

  /** A destination and, if known, the address it resolved to. */
  datatype ResolvedLocation = ResolvedLocation(location: NetLocation, resolved: Option<Socket>)

  datatype Protocol = Http | Tls | Quic | Bittorrent | Ssh

  datatype Mask = Mask(address: Address, netmask: Ip, port: nat)

  datatype Matcher =
    | Location(mask: Mask)
    | DomainKeyword(keyword: string)
    | DomainFull(domain: string)
    | DomainSuffix(suffix: string)
    | DomainRegex(regex: nat)
    | OnProtocol(protocol: Protocol)

  datatype Action = Allow(overrideAddress: Option<NetLocation>, chain: nat) | Block

  datatype Rule = Rule(matchers: seq<Matcher>, action: Action)

  /** What the rules ask of the outside: the resolver (None if it fails), the regular expressions,
      and the lower-case form of any text. */
  datatype World = World(resolve: NetLocation -> Option<seq<Socket>>, regexMatches: (nat, string) -> bool,
      lowercase: string -> string)

  /** What a matcher says.  A soft error is logged and counts as no match; a fatal one ends the scan. */
  datatype Verdict = Match | NoMatch | SoftError | Fatal

  datatype ScanError = CannotResolve

  /** A scan's question: the destination, its IP address if it can be had, the sniffed protocol,
      and whether rule hostnames are resolved. */
  datatype Query = Query(location: NetLocation, ip: Option<Ip>, protocol: Option<Protocol>, resolveRules: bool)

  function LowerChar(c: char): char {
    if 'A' <= c <= 'Z' then (c as int + 32) as char else c
  }

  /** ASCII lower case. */
  function Lower(s: string): (t: string)
    ensures |t| == |s| && forall i :: 0 <= i < |s| ==> t[i] == LowerChar(s[i])
  {
    seq(|s|, i requires 0 <= i < |s| => LowerChar(s[i]))
  }

  function NoBits(): Ip {
    Zeros(128)
  }

  /** Eighty zero bits, sixteen one bits and the IPv4 address. */
  function Mapped(ip: Ip4): Ip {
    Zeros(80) + seq(16, _ => true) + ip
  }

  predicate EndsWith(s: string, t: string) {
    |t| <= |s| && s[|s| - |t|..] == t
  }

  predicate Contains(s: string, t: string) {
    |t| <= |s| && (s[..|t|] == t || (s != [] && Contains(s[1..], t)))
  }

  /** The domain itself or one below it. */
  predicate MatchesDomain(domain: string, hostname: string) {
    EndsWith(hostname, domain) &&
    (|hostname| == |domain| || hostname[|hostname| - |domain| - 1] == '.')
  }

  // ----- what the matchers say

  /** The address a destination stands for: the one already known, itself, or the resolver's first. */
  function Destination(l: ResolvedLocation, world: World): Option<Socket> {
    if l.resolved.Some? then l.resolved
    else match l.location.address
      case Ipv4(ip) => Some(Socket(Mapped(ip), l.location.port))
      case Ipv6(ip) => Some(Socket(ip, l.location.port))
      case Hostname(_) =>
        var found := world.resolve(l.location);
        if found.None? || found.value == [] then None else Some(found.value[0])
  }

  function DestinationIp(l: ResolvedLocation, known: Option<Ip>, world: World): Option<Ip> {
    if known.Some? then known
    else
      var socket := Destination(l, world);
      if socket.Some? then Some(socket.value.ip) else None
  }

  function And(ip: Ip, netmask: Ip): Ip {
    seq(128, i requires 0 <= i < 128 => ip[i] && netmask[i])
  }

  predicate Masks(ip: Ip, netmask: Ip, masked: Ip) {
    And(ip, netmask) == masked
  }

  predicate AnyMasked(sockets: seq<Socket>, netmask: Ip, masked: Ip) {
    exists i :: 0 <= i < |sockets| && Masks(sockets[i].ip, netmask, masked)
  }

  function Truth(b: bool): Verdict {
    if b then Match else NoMatch
  }

  /** A mask whose port fits and which is not "any address", against a resolved destination. */
  function MaskedVerdict(mask: Mask, ip: Ip, world: World): Verdict {
    var masked := And(ip, mask.netmask);
    match mask.address
    case Ipv4(a) => Truth(Masks(Mapped(a), mask.netmask, masked))
    case Ipv6(a) => Truth(Masks(a, mask.netmask, masked))
    case Hostname(_) =>
      var found := world.resolve(NetLocation(mask.address, mask.port));
      if found.None? then SoftError else Truth(AnyMasked(found.value, mask.netmask, masked))
  }

  function MaskVerdict(mask: Mask, q: Query, world: World): Verdict {
    if mask.port > 0 && mask.port != q.location.port then NoMatch
    else if mask.netmask == NoBits() then Match
    else if mask.address.Hostname? && q.location.address.Hostname? then
      Truth(MatchesDomain(mask.address.name, q.location.address.name))
    else if mask.address.Hostname? && !q.resolveRules then NoMatch
    else if q.ip.None? then Fatal
    else MaskedVerdict(mask, q.ip.value, world)
  }

  /** Domain matchers look at hostnames only. */
  predicate DomainMatches(matcher: Matcher, hostname: string, world: World) {
    match matcher
    case DomainKeyword(keyword) => keyword != "" && Contains(Lower(hostname), keyword)
    case DomainFull(domain) => domain != "" && Lower(hostname) == Lower(domain)
    case DomainSuffix(suffix) => suffix != "" && MatchesDomain(suffix, Lower(hostname))
    case DomainRegex(regex) => world.regexMatches(regex, hostname)
    case _ => false
  }

  function VerdictOf(matcher: Matcher, q: Query, world: World): Verdict {
    match matcher
    case Location(mask) => MaskVerdict(mask, q, world)
    case OnProtocol(protocol) => Truth(q.protocol == Some(protocol))
    case _ => Truth(q.location.address.Hostname? && DomainMatches(matcher, q.location.address.name, world))
  }

  predicate Decisive(v: Verdict) {
    v.Match? || v.Fatal?
  }

  // ----- the scan

  /** The first decisive verdict of a rule's matchers from index `k` on. */
  function RuleFrom(matchers: seq<Matcher>, k: nat, q: Query, world: World): Verdict
    requires k <= |matchers|
    decreases |matchers| - k
  {
    if k == |matchers| then NoMatch
    else
      var v := VerdictOf(matchers[k], q, world);
      if Decisive(v) then v else RuleFrom(matchers, k + 1, q, world)
  }

  function ScanFrom(rules: seq<Rule>, i: nat, q: Query, world: World): (r: Result<Option<nat>, ScanError>)
    requires i <= |rules|
    ensures r.Ok? && r.value.Some? ==> i <= r.value.value < |rules|
    decreases |rules| - i
  {
    if i == |rules| then Ok(None)
    else
      match RuleFrom(rules[i].matchers, 0, q, world)
      case Match => Ok(Some(i))
      case Fatal => Err(CannotResolve)
      case _ => ScanFrom(rules, i + 1, q, world)
  }

  function Scan(rules: seq<Rule>, q: Query, world: World): (r: Result<Option<nat>, ScanError>)
    ensures r.Ok? && r.value.Some? ==> r.value.value < |rules|
  {
    ScanFrom(rules, 0, q, world)
  }

  /** No matcher before matcher `k` of rule `i` decides. */
  ghost predicate NoneBefore(rules: seq<Rule>, i: nat, k: nat, q: Query, world: World)
    requires i <= |rules|
  {
    && (forall r, m :: 0 <= r < i && 0 <= m < |rules[r].matchers| ==>
           !Decisive(VerdictOf(rules[r].matchers[m], q, world)))
    && (i < |rules| ==>
           forall m :: 0 <= m < k && m < |rules[i].matchers| ==> !Decisive(VerdictOf(rules[i].matchers[m], q, world)))
  }

  lemma {:induction false} RuleFromFirst(matchers: seq<Matcher>, k: nat, q: Query, world: World) returns (m: nat)
    requires k <= |matchers|
    ensures k <= m <= |matchers| && forall j :: k <= j < m ==> !Decisive(VerdictOf(matchers[j], q, world))
    ensures RuleFrom(matchers, k, q, world) == (if m < |matchers| then VerdictOf(matchers[m], q, world) else NoMatch)
    ensures m < |matchers| ==> Decisive(VerdictOf(matchers[m], q, world))
    decreases |matchers| - k
  {
    hide VerdictOf;
    m := k;
    if k < |matchers| && !Decisive(VerdictOf(matchers[k], q, world)) {
      m := RuleFromFirst(matchers, k + 1, q, world);
    }
  }

  /** The scan's result is that of the first matcher, in rule order, that matches or fails fatally;
      `i` and `k` are its place, or the end. */
  lemma {:induction false} ScanFromFirst(rules: seq<Rule>, start: nat, q: Query, world: World) returns (i: nat, k: nat)
    requires start <= |rules| && NoneBefore(rules, start, 0, q, world)
    ensures i <= |rules| && NoneBefore(rules, i, k, q, world)
    ensures i == |rules| <==> ScanFrom(rules, start, q, world) == Ok(None)
    ensures i < |rules| ==>
      && k < |rules[i].matchers|
      && ScanFrom(rules, start, q, world) ==
           (if VerdictOf(rules[i].matchers[k], q, world).Match? then Ok(Some(i)) else Err(CannotResolve))
      && Decisive(VerdictOf(rules[i].matchers[k], q, world))
    decreases |rules| - start
  {
    hide VerdictOf;
    if start == |rules| {
      return start, 0;
    }
    k := RuleFromFirst(rules[start].matchers, 0, q, world);
    if k < |rules[start].matchers| {
      return start, k;
    }
    i, k := ScanFromFirst(rules, start + 1, q, world);
  }

  /** The scan is the first-match rule. */
  lemma ScanIsFirstMatch(rules: seq<Rule>, q: Query, world: World) returns (i: nat, k: nat)
    ensures i <= |rules| && NoneBefore(rules, i, k, q, world)
    ensures i == |rules| <==> Scan(rules, q, world) == Ok(None)
    ensures i < |rules| ==>
      && k < |rules[i].matchers|
      && Decisive(VerdictOf(rules[i].matchers[k], q, world))
      && (Scan(rules, q, world) == Ok(Some(i)) <==> VerdictOf(rules[i].matchers[k], q, world).Match?)
      && (Scan(rules, q, world) == Err(CannotResolve) <==> VerdictOf(rules[i].matchers[k], q, world).Fatal?)
  {
    hide VerdictOf;
    i, k := ScanFromFirst(rules, 0, q, world);
  }

  // ----- the code, which resolves once

  /** The question a scan under way is answering, whatever it has resolved so far. */
  function Asked(l: ResolvedLocation, known: Option<Ip>, protocol: Option<Protocol>, resolveRules: bool,
      world: World): Query {
    Query(l.location, DestinationIp(l, known, world), protocol, resolveRules)
  }

  /** The destination is the same, and carries at most the address it stands for. */
  ghost predicate Memo(l: ResolvedLocation, kept: ResolvedLocation, world: World) {
    kept.location == l.location && (kept.resolved == l.resolved || kept.resolved == Destination(l, world))
  }

  /** Resolves a destination and keeps the answer in it. */
  method ResolveLocation(l: ResolvedLocation, world: World) returns (r: Option<Socket>, kept: ResolvedLocation)
    ensures r == Destination(l, world)
    ensures kept == if r.Some? then l.(resolved := r) else l
  {
    kept := l;
    if l.resolved.Some? { return l.resolved, l; }
    match l.location.address {
      case Ipv4(ip) => r := Some(Socket(Mapped(ip), l.location.port));
      case Ipv6(ip) => r := Some(Socket(ip, l.location.port));
      case Hostname(_) =>
        var found := world.resolve(l.location);
        if found.None? || found.value == [] { return None, l; }
        r := Some(found.value[0]);
    }
    kept := l.(resolved := r);
  }

  method FindMasked(sockets: seq<Socket>, netmask: Ip, masked: Ip) returns (found: bool)
    ensures found == AnyMasked(sockets, netmask, masked)
  {
    hide Masks;
    for i := 0 to |sockets|
      invariant forall j :: 0 <= j < i ==> !Masks(sockets[j].ip, netmask, masked)
    {
      if Masks(sockets[i].ip, netmask, masked) { return true; }
    }
    return false;
  }

  method MatchMasked(mask: Mask, ip: Ip, world: World) returns (v: Verdict)
    ensures v == MaskedVerdict(mask, ip, world)
  {
    hide And, Masks, AnyMasked, Mapped;
    var masked := And(ip, mask.netmask);
    match mask.address {
      case Ipv4(a) => v := Truth(Masks(Mapped(a), mask.netmask, masked));
      case Ipv6(a) => v := Truth(Masks(a, mask.netmask, masked));
      case Hostname(_) =>
        var resolved := world.resolve(NetLocation(mask.address, mask.port));
        if resolved.None? { return SoftError; }
        var found := FindMasked(resolved.value, mask.netmask, masked);
        v := Truth(found);
    }
  }

  method MatchMask(mask: Mask, l: ResolvedLocation, known: Option<Ip>, resolveRules: bool, world: World)
    returns (v: Verdict, kept: ResolvedLocation, knownNow: Option<Ip>)
    ensures Memo(l, kept, world) && DestinationIp(kept, knownNow, world) == DestinationIp(l, known, world)
    ensures forall protocol :: v == MaskVerdict(mask, Asked(l, known, protocol, resolveRules, world), world)
  {
    kept, knownNow := l, known;
    if mask.port > 0 && mask.port != l.location.port { return NoMatch, l, known; }
    if mask.netmask == NoBits() { return Match, l, known; }
    if mask.address.Hostname? {
      if l.location.address.Hostname? {
        return Truth(MatchesDomain(mask.address.name, l.location.address.name)), l, known;
      }
      if !resolveRules { return NoMatch, l, known; }
    }
    if known.None? {
      var socket;
      socket, kept := ResolveLocation(l, world);
      if socket.None? { return Fatal, l, known; }
      knownNow := Some(socket.value.ip);
    }
    v := MatchMasked(mask, knownNow.value, world);
  }

  method MatchMatcher(matcher: Matcher, l: ResolvedLocation, known: Option<Ip>, protocol: Option<Protocol>,
      resolveRules: bool, world: World)
    returns (v: Verdict, kept: ResolvedLocation, knownNow: Option<Ip>)
    ensures Memo(l, kept, world)
    ensures Asked(kept, knownNow, protocol, resolveRules, world) == Asked(l, known, protocol, resolveRules, world)
    ensures v == VerdictOf(matcher, Asked(l, known, protocol, resolveRules, world), world)
  {
    kept, knownNow := l, known;
    if matcher.Location? {
      v, kept, knownNow := MatchMask(matcher.mask, l, known, resolveRules, world);
    } else if matcher.OnProtocol? {
      v := Truth(protocol == Some(matcher.protocol));
    } else {
      v := Truth(l.location.address.Hostname? && DomainMatches(matcher, l.location.address.name, world));
    }
  }

  /** Tries the matchers of one rule. */
  method MatchOneRule(matchers: seq<Matcher>, l: ResolvedLocation, known: Option<Ip>, protocol: Option<Protocol>,
      resolveRules: bool, world: World)
    returns (v: Verdict, kept: ResolvedLocation, knownNow: Option<Ip>)
    ensures Memo(l, kept, world)
    ensures Asked(kept, knownNow, protocol, resolveRules, world) == Asked(l, known, protocol, resolveRules, world)
    ensures v == RuleFrom(matchers, 0, Asked(l, known, protocol, resolveRules, world), world)
  {
    hide VerdictOf, Asked;
    kept, knownNow := l, known;
    ghost var q := Asked(l, known, protocol, resolveRules, world);
    for k := 0 to |matchers|
      invariant Memo(l, kept, world) && Asked(kept, knownNow, protocol, resolveRules, world) == q
      invariant RuleFrom(matchers, 0, q, world) == RuleFrom(matchers, k, q, world)
    {
      v, kept, knownNow := MatchMatcher(matchers[k], kept, knownNow, protocol, resolveRules, world);
      if Decisive(v) { return; }
    }
    v := NoMatch;
  }

  /** The index of the rule that decides; resolving at most once changes nothing about it. */
  method MatchRule(rules: seq<Rule>, l: ResolvedLocation, known: Option<Ip>, protocol: Option<Protocol>,
      resolveRules: bool, world: World)
    returns (r: Result<Option<nat>, ScanError>, kept: ResolvedLocation)
    ensures r == Scan(rules, Asked(l, known, protocol, resolveRules, world), world)
    ensures Memo(l, kept, world)
  {
    kept := l;
    var knownNow := known;
    ghost var q := Asked(l, known, protocol, resolveRules, world);
    hide RuleFrom;
    for i := 0 to |rules|
      invariant Memo(l, kept, world) && Asked(kept, knownNow, protocol, resolveRules, world) == q
      invariant Scan(rules, q, world) == ScanFrom(rules, i, q, world)
    {
      var v;
      v, kept, knownNow := MatchOneRule(rules[i].matchers, kept, knownNow, protocol, resolveRules, world);
      if v.Match? { return Ok(Some(i)), kept; }
      if v.Fatal? { return Err(CannotResolve), kept; }
    }
    r := Ok(None);
  }

  // ----- what a scan does not depend on

  /** A destination as the cache distinguishes it: its hostname in lower case. */
  function Key(location: NetLocation, world: World): NetLocation {
    match location.address
    case Hostname(name) => NetLocation(Hostname(world.lowercase(name)), location.port)
    case _ => location
  }

  predicate IsAscii(s: string) {
    forall i :: 0 <= i < |s| ==> s[i] as int < 128
  }

  predicate AsciiDestination(location: NetLocation) {
    location.address.Hostname? ==> IsAscii(location.address.name)
  }

  /** Names that differ in case only are the same name to the resolver and to the regular
      expressions, and lower case is ASCII lower case on ASCII text. */
  ghost predicate CaseBlind(world: World) {
    && (forall a: string, b: string, port ::
          Lower(a) == Lower(b) ==>
            world.resolve(NetLocation(Hostname(a), port)) == world.resolve(NetLocation(Hostname(b), port)))
    && (forall r, a: string, b: string :: Lower(a) == Lower(b) ==> world.regexMatches(r, a) == world.regexMatches(r, b))
    && (forall a: string :: IsAscii(a) ==> world.lowercase(a) == Lower(a))
  }

  ghost predicate NoHostnameMask(rules: seq<Rule>) {
    forall i, k :: 0 <= i < |rules| && 0 <= k < |rules[i].matchers| ==>
      !(rules[i].matchers[k].Location? && rules[i].matchers[k].mask.address.Hostname?)
  }

  predicate NeedsProtocol(matcher: Matcher) {
    matcher.OnProtocol?
  }

  predicate RuleNeedsProtocol(rule: Rule) {
    exists k :: 0 <= k < |rule.matchers| && NeedsProtocol(rule.matchers[k])
  }

  predicate RulesNeedProtocol(rules: seq<Rule>) {
    exists i :: 0 <= i < |rules| && RuleNeedsProtocol(rules[i])
  }

  /** The question for a destination that nobody resolved yet. */
  function Fresh(location: NetLocation, protocol: Option<Protocol>, resolveRules: bool, world: World): Query {
    Asked(ResolvedLocation(location, None), None, protocol, resolveRules, world)
  }

  lemma {:induction false} SameVerdictsSameRule(matchers: seq<Matcher>, k: nat, q: Query, p: Query, world: World)
    requires k <= |matchers|
    requires forall j :: 0 <= j < |matchers| ==> VerdictOf(matchers[j], q, world) == VerdictOf(matchers[j], p, world)
    ensures RuleFrom(matchers, k, q, world) == RuleFrom(matchers, k, p, world)
    decreases |matchers| - k
  {
    hide VerdictOf;
    if k < |matchers| {
      SameVerdictsSameRule(matchers, k + 1, q, p, world);
    }
  }

  lemma {:induction false} SameVerdictsSameScan(rules: seq<Rule>, i: nat, q: Query, p: Query, world: World)
    requires i <= |rules|
    requires forall r, m :: 0 <= r < |rules| && 0 <= m < |rules[r].matchers| ==>
      VerdictOf(rules[r].matchers[m], q, world) == VerdictOf(rules[r].matchers[m], p, world)
    ensures ScanFrom(rules, i, q, world) == ScanFrom(rules, i, p, world)
    decreases |rules| - i
  {
    hide VerdictOf;
    if i < |rules| {
      SameVerdictsSameRule(rules[i].matchers, 0, q, p, world);
      SameVerdictsSameScan(rules, i + 1, q, p, world);
    }
  }

  /** Case variants of one destination. */
  lemma CaseVariants(a: NetLocation, b: NetLocation, world: World)
    requires CaseBlind(world) && AsciiDestination(a) && AsciiDestination(b) && Key(a, world) == Key(b, world)
    ensures a.port == b.port && (a.address.Hostname? <==> b.address.Hostname?)
    ensures a.address.Hostname? ==> Lower(a.address.name) == Lower(b.address.name)
    ensures !a.address.Hostname? ==> a == b
    ensures Destination(ResolvedLocation(a, None), world) == Destination(ResolvedLocation(b, None), world)
  {
    if a.address.Hostname? {
      assert world.lowercase(a.address.name) == Lower(a.address.name);
      assert world.lowercase(b.address.name) == Lower(b.address.name);
      assert a == NetLocation(Hostname(a.address.name), a.port) && b == NetLocation(Hostname(b.address.name), b.port);
    }
  }

  /** The only matchers that look at the spelling: hostname masks that apply to the port and compare
      names. */
  predicate Spells(matcher: Matcher, d: NetLocation) {
    && matcher.Location? && matcher.mask.address.Hostname? && matcher.mask.netmask != NoBits()
    && d.address.Hostname? && (matcher.mask.port == 0 || matcher.mask.port == d.port)
  }

  predicate HoldsAlike(domain: string, a: NetLocation, b: NetLocation) {
    && a.address.Hostname? && b.address.Hostname?
    && MatchesDomain(domain, a.address.name) == MatchesDomain(domain, b.address.name)
  }

  /** Two spellings of a destination meet the same verdict, except exactly if the matcher is such a
      mask and its domain holds one of them and not the other. */
  lemma CaseVariantVerdict(matcher: Matcher, a: NetLocation, b: NetLocation, protocol: Option<Protocol>,
                           resolveRules: bool, world: World)
    requires CaseBlind(world) && AsciiDestination(a) && AsciiDestination(b) && Key(a, world) == Key(b, world)
    ensures VerdictOf(matcher, Fresh(a, protocol, resolveRules, world), world)
         == VerdictOf(matcher, Fresh(b, protocol, resolveRules, world), world)
       <==> !Spells(matcher, a) || HoldsAlike(matcher.mask.address.name, a, b)
  {
    CaseVariants(a, b, world);
    hide Destination, Key, AsciiDestination, Lower, MaskedVerdict, Contains, MatchesDomain;
  }

  /** Every hostname mask that compares names takes both destinations or neither. */
  ghost predicate SpelledAlike(rules: seq<Rule>, a: NetLocation, b: NetLocation) {
    forall i, k :: 0 <= i < |rules| && 0 <= k < |rules[i].matchers| && Spells(rules[i].matchers[k], a) ==>
      HoldsAlike(rules[i].matchers[k].mask.address.name, a, b)
  }

  lemma NoMaskNoSpelling(rules: seq<Rule>, a: NetLocation, b: NetLocation)
    requires NoHostnameMask(rules)
    ensures SpelledAlike(rules, a, b)
  {
  }

  /** Case variants that no hostname mask tells apart are decided alike. */
  lemma CaseVariantsDecidedAlike(rules: seq<Rule>, a: NetLocation, b: NetLocation, protocol: Option<Protocol>,
                                 resolveRules: bool, world: World)
    requires CaseBlind(world) && AsciiDestination(a) && AsciiDestination(b) && Key(a, world) == Key(b, world)
    requires SpelledAlike(rules, a, b)
    ensures Scan(rules, Fresh(a, protocol, resolveRules, world), world)
         == Scan(rules, Fresh(b, protocol, resolveRules, world), world)
  {
    hide VerdictOf, Fresh, CaseBlind, Key, AsciiDestination, Spells, HoldsAlike;
    var q, p := Fresh(a, protocol, resolveRules, world), Fresh(b, protocol, resolveRules, world);
    forall r, m | 0 <= r < |rules| && 0 <= m < |rules[r].matchers|
      ensures VerdictOf(rules[r].matchers[m], q, world) == VerdictOf(rules[r].matchers[m], p, world)
    {
      CaseVariantVerdict(rules[r].matchers[m], a, b, protocol, resolveRules, world);
    }
    SameVerdictsSameScan(rules, 0, q, p, world);
  }

  /** Rules without protocol matchers do not look at the protocol. */
  lemma ProtocolIrrelevant(rules: seq<Rule>, location: NetLocation, protocol: Option<Protocol>,
      other: Option<Protocol>, resolveRules: bool, world: World)
    requires !RulesNeedProtocol(rules)
    ensures Scan(rules, Fresh(location, protocol, resolveRules, world), world) ==
      Scan(rules, Fresh(location, other, resolveRules, world), world)
  {
    var q, p := Fresh(location, protocol, resolveRules, world), Fresh(location, other, resolveRules, world);
    forall r, m | 0 <= r < |rules| && 0 <= m < |rules[r].matchers|
      ensures VerdictOf(rules[r].matchers[m], q, world) == VerdictOf(rules[r].matchers[m], p, world)
    {
      assert !RuleNeedsProtocol(rules[r]);
      assert !NeedsProtocol(rules[r].matchers[m]);
    }
    SameVerdictsSameScan(rules, 0, q, p, world);
  }
}
