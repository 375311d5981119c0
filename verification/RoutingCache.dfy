/** ClientProxySelector (src/client_proxy_selector.rs): first-match routing with a cache of decisions
    keyed by the lower-cased destination. */
module RoutingCaches {
  import opened Common
  import opened RoutingRules

  const CACHE_RULE_THRESHOLD := 16

  /** Allow by rule number, also if that rule blocks; Block if no rule matched. */
  datatype Cached = AllowBy(index: nat) | NoRule

  datatype Decision = Allowed(chain: nat, remote: ResolvedLocation) | Blocked

  type Outcome = Result<Decision, ScanError>

  ghost predicate Distinct(order: seq<NetLocation>) {
    forall i, j :: 0 <= i < j < |order| ==> order[i] != order[j]
  }

  lemma DistinctPush(order: seq<NetLocation>, key: NetLocation)
    requires Distinct(order) && key !in order
    ensures Distinct([key] + order)
  {
  }

  /** Taking one key out of a list without repetitions. */
  lemma DistinctCut(order: seq<NetLocation>, at: nat)
    requires Distinct(order) && at < |order|
    ensures var cut := order[..at] + order[at + 1..];
            Distinct(cut) && forall k :: k in cut <==> k in order && k != order[at]
  {
    var cut := order[..at] + order[at + 1..];
    assert forall i :: 0 <= i < |cut| ==> cut[i] == order[if i < at then i else i + 1];
    forall k ensures k in cut <==> k in order && k != order[at] {
      if k in order && k != order[at] {
        var i :| 0 <= i < |order| && order[i] == k;
        assert cut[if i < at then i else i - 1] == k;
      }
    }
  }

  /** A cache of anything by key: what it holds, and in which order it was put there, latest first. */
  datatype Lru<T> = Lru(entries: map<NetLocation, T>, order: seq<NetLocation>)

  /** Puts a new key first; a full cache loses its last one. */
  function PutNew<T>(c: Lru<T>, capacity: nat, key: NetLocation, value: T): Lru<T> {
    if c.order != [] && |c.order| >= capacity then
      var last := |c.order| - 1;
      Lru((c.entries - {c.order[last]})[key := value], [key] + c.order[..last])
    else Lru(c.entries[key := value], [key] + c.order)
  }

  /** Least recently inserted entries go first; a lookup does not count as a use. */
  class RoutingCache {
    const capacity: nat
    var entries: map<NetLocation, Cached>
    var order: seq<NetLocation>

    ghost function State(): Lru<Cached>
      reads this
    {
      Lru(entries, order)
    }

    ghost predicate Valid()
      reads this
    {
      && |order| <= capacity && capacity >= 1
      && (forall k :: k in entries <==> k in order)
      && Distinct(order)
    }

    constructor (capacity: nat)
      ensures Valid() && entries == map[] && order == [] && this.capacity == (if capacity == 0 then 1 else capacity)
    {
      this.capacity := if capacity == 0 then 1 else capacity;
      entries, order := map[], [];
    }

    method Get(location: NetLocation, world: World) returns (r: Option<Cached>)
      ensures r == (if Key(location, world) in entries then Some(entries[Key(location, world)]) else None)
    {
      var key := Key(location, world);
      if key in entries { return Some(entries[key]); }
      return None;
    }

    /** Puts an entry first; if the cache was full of others, the last one goes. */
    method Insert(location: NetLocation, decision: Cached, world: World)
      requires Valid()
      modifies this
      ensures Valid()
      ensures var key := Key(location, world);
              && key in entries && entries[key] == decision && order[0] == key
              && (forall k :: k != key ==>
                   (k in entries <==> k in old(entries) && !(old(Full(key)) && k == old(order)[|old(order)| - 1])))
              && (forall k :: k != key && k in entries ==> k in old(entries) && entries[k] == old(entries)[k])
              && (key !in old(entries) ==> State() == PutNew(old(State()), capacity, key, decision))
    {
      hide Distinct;
      var key := Key(location, world);
      if key in entries {
        Remove(key);
      } else if |order| == capacity {
        Remove(order[|order| - 1]);
      }
      DistinctPush(order, key);
      entries := entries[key := decision];
      order := [key] + order;
    }

    /** Takes one entry out. */
    method Remove(key: NetLocation)
      requires Valid() && key in order
      modifies this
      ensures Valid() && |order| == |old(order)| - 1 && entries == old(entries) - {key}
      ensures key == old(order)[|old(order)| - 1] ==> order == old(order)[..|old(order)| - 1]
    {
      var at := IndexOf(key);
      DistinctCut(order, at);
      assert order[at] == order[|order| - 1] ==> at == |order| - 1;
      hide Distinct;
      entries := entries - {key};
      order := order[..at] + order[at + 1..];
    }

    ghost predicate Full(key: NetLocation)
      reads this
    {
      key !in entries && |order| == capacity && order != []
    }

    method IndexOf(key: NetLocation) returns (i: nat)
      requires key in order
      ensures i < |order| && order[i] == key
    {
      i := 0;
      while order[i] != key
        invariant i < |order| && key !in order[..i]
        decreases |order| - i
      {
        i := i + 1;
      }
    }
  }

  // ----- decisions

  /** Whether a selector for these rules caches. */
  predicate Caches(rules: seq<Rule>, resolveRules: bool) {
    !RulesNeedProtocol(rules) && (resolveRules || |rules| > CACHE_RULE_THRESHOLD)
  }

  predicate InRange(cached: Cached, rules: seq<Rule>) {
    cached.AllowBy? ==> cached.index < |rules|
  }

  function ToDecision(action: Action, l: ResolvedLocation): (d: Decision)
    ensures d.Blocked? <==> action.Block?
    ensures action.Allow? ==> d.chain == action.chain
    ensures action.Allow? && action.overrideAddress.None? ==> d.remote == l
    ensures action.Allow? && action.overrideAddress.Some? ==>
      && d.remote.resolved.None?
      && d.remote.location.address == action.overrideAddress.value.address
      && d.remote.location.port in {action.overrideAddress.value.port, l.location.port}
      && (d.remote.location.port == 0 <==> action.overrideAddress.value.port == 0 == l.location.port)
  {
    match action
    case Block => Blocked
    case Allow(overrideAddress, chain) =>
      match overrideAddress
      case None => Allowed(chain, l)
      case Some(o) =>
        // Port 0 stands for the requested port.
        Allowed(chain, ResolvedLocation(if o.port > 0 then o else NetLocation(o.address, l.location.port), None))
  }

  function FromCached(rules: seq<Rule>, cached: Cached, l: ResolvedLocation): Decision
    requires InRange(cached, rules)
  {
    if cached.AllowBy? then ToDecision(rules[cached.index].action, l) else Blocked
  }

  function ToCached(found: Option<nat>): Cached {
    if found.Some? then AllowBy(found.value) else NoRule
  }

  /** The uncached answer: the scan's rule applied to the destination. */
  function Reference(rules: seq<Rule>, l: ResolvedLocation, q: Query, world: World): Outcome {
    var found := Scan(rules, q, world);
    if found.Err? then Err(found.error) else Ok(FromCached(rules, ToCached(found.value), l))
  }

  /** The same action and destination; the address it resolved to is left aside. */
  predicate Agree(a: Outcome, b: Outcome) {
    if a.Err? || b.Err? then a == b
    else if a.value.Blocked? || b.value.Blocked? then a == b
    else a.value.chain == b.value.chain && a.value.remote.location == b.value.remote.location
  }

  lemma MemoAgrees(rules: seq<Rule>, cached: Cached, l: ResolvedLocation, kept: ResolvedLocation)
    requires InRange(cached, rules)
    requires l.location == kept.location
    ensures Agree(Ok(FromCached(rules, cached, kept)), Ok(FromCached(rules, cached, l)))
  {
  }

  function KnownIp(l: ResolvedLocation): Option<Ip> {
    if l.resolved.Some? then Some(l.resolved.value.ip) else None
  }

  class Selector {
    const rules: seq<Rule>
    const resolveRules: bool
    const cache: RoutingCache?

    ghost predicate Valid()
      reads this, cache
    {
      cache != null ==>
        && cache.Valid() && !RulesNeedProtocol(rules)
        && forall k :: k in cache.entries ==> InRange(cache.entries[k], rules)
    }

    /** Caching is off when a rule looks at the protocol, and for a few rules that resolve nothing. */
    constructor (rules: seq<Rule>, resolveRules: bool, capacity: nat)
      ensures Valid() && this.rules == rules && this.resolveRules == resolveRules
      ensures cache != null <==> Caches(rules, resolveRules)
      ensures cache != null ==> fresh(cache) && cache.State() == Lru(map[], []) && cache.capacity == Max(capacity, 1)
    {
      this.rules, this.resolveRules := rules, resolveRules;
      if Caches(rules, resolveRules) {
        this.cache := new RoutingCache(Max(capacity, 1));
      } else {
        this.cache := null;
      }
    }

    /** The question a request asks. */
    function QueryOf(l: ResolvedLocation, known: Option<Ip>, protocol: Option<Protocol>, world: World): Query {
      Asked(l, known, protocol, resolveRules, world)
    }

    method JudgeUncached(l: ResolvedLocation, known: Option<Ip>, protocol: Option<Protocol>, world: World)
      returns (r: Outcome)
      ensures Agree(r, Reference(rules, l, QueryOf(l, known, protocol, world), world))
      ensures r.Ok? && r.value.Allowed? && r.value.remote.location == l.location ==>
        r.value.remote.resolved.None? || Memo(l, r.value.remote, world)
    {
      var found, kept := MatchRule(rules, l, known, protocol, resolveRules, world);
      if found.Err? { return Err(found.error); }
      MemoAgrees(rules, ToCached(found.value), l, kept);
      return Ok(FromCached(rules, ToCached(found.value), kept));
    }

    /** A cached decision is applied to the destination at hand; otherwise the rules decide, and what
        they decide is cached unless the destination could not be resolved. */
    method JudgeInner(l: ResolvedLocation, protocol: Option<Protocol>, world: World) returns (r: Outcome)
      requires Valid()
      modifies cache
      ensures Valid()
      ensures cache == null ==> Agree(r, Reference(rules, l, QueryOf(l, KnownIp(l), protocol, world), world))
      ensures cache != null ==>
        var key := Key(l.location, world);
        if key in old(cache.entries) then
          r == Ok(FromCached(rules, old(cache.entries)[key], l)) && cache.entries == old(cache.entries)
        else
          && Agree(r, Reference(rules, l, QueryOf(l, KnownIp(l), protocol, world), world))
          && Stored(old(cache.entries), cache.entries, key, Scan(rules, QueryOf(l, KnownIp(l), protocol, world), world))
      ensures cache != null ==>
        var found := Scan(rules, QueryOf(l, KnownIp(l), protocol, world), world);
        cache.State() == if Key(l.location, world) in old(cache.entries) || found.Err? then old(cache.State())
                         else PutNew(old(cache.State()), cache.capacity, Key(l.location, world), ToCached(found.value))
    {
      if cache == null {
        r := JudgeUncached(l, KnownIp(l), protocol, world);
        return;
      }
      var cached := cache.Get(l.location, world);
      if cached.Some? { return Ok(FromCached(rules, cached.value, l)); }
      var found, kept := MatchRule(rules, l, KnownIp(l), protocol, resolveRules, world);
      if found.Err? { return Err(found.error); }
      MemoAgrees(rules, ToCached(found.value), l, kept);
      cache.Insert(kept.location, ToCached(found.value), world);
      return Ok(FromCached(rules, ToCached(found.value), kept));
    }
  }

  /** What a miss may do to the cache: store the scan's answer under the key and drop entries. */
  ghost predicate Stored(before: map<NetLocation, Cached>, after: map<NetLocation, Cached>, key: NetLocation,
      found: Result<Option<nat>, ScanError>) {
    if found.Err? then after == before
    else
      && key in after && after[key] == ToCached(found.value)
      && forall k :: k != key && k in after ==> k in before && after[k] == before[k]
  }

  // ----- runs

  datatype Request = Request(location: NetLocation, protocol: Option<Protocol>)

  /** What a request is answered without the cache. */
  function Answer(rules: seq<Rule>, resolveRules: bool, request: Request, world: World): Outcome {
    Reference(rules, ResolvedLocation(request.location, None),
              Fresh(request.location, request.protocol, resolveRules, world), world)
  }

  /** Applying a cached rule to `d` answers it as the rules do. */
  predicate Fits(cached: Cached, d: NetLocation, rules: seq<Rule>, resolveRules: bool, world: World)
    requires InRange(cached, rules)
  {
    Agree(Ok(FromCached(rules, cached, ResolvedLocation(d, None))),
          Answer(rules, resolveRules, Request(d, None), world))
  }

  /** What the cache may do for `b` after `a` was asked for: if the two share a key and `a` could be
      decided, the rule that decides `a`, applied to `b`, gives the action and destination that the
      rules give `b`. */
  predicate Interchangeable(a: NetLocation, b: NetLocation, rules: seq<Rule>, resolveRules: bool, world: World) {
    var found := Scan(rules, Fresh(a, None, resolveRules, world), world);
    Key(a, world) == Key(b, world) && found.Ok? ==> Fits(ToCached(found.value), b, rules, resolveRules, world)
  }

  /** Every cached decision fits each destination considered that has its key. */
  ghost predicate Sound(entries: map<NetLocation, Cached>, destinations: iset<NetLocation>,
                        rules: seq<Rule>, resolveRules: bool, world: World)
  {
    forall d :: d in destinations && Key(d, world) in entries ==>
      InRange(entries[Key(d, world)], rules) && Fits(entries[Key(d, world)], d, rules, resolveRules, world)
  }

  ghost predicate Consistent(destinations: iset<NetLocation>, rules: seq<Rule>, resolveRules: bool, world: World) {
    forall a, b :: a in destinations && b in destinations ==> Interchangeable(a, b, rules, resolveRules, world)
  }

  lemma StoredSound(before: map<NetLocation, Cached>, after: map<NetLocation, Cached>, d: NetLocation,
                    found: Result<Option<nat>, ScanError>, destinations: iset<NetLocation>,
                    rules: seq<Rule>, resolveRules: bool, world: World)
    requires Sound(before, destinations, rules, resolveRules, world)
    requires Consistent(destinations, rules, resolveRules, world)
    requires d in destinations && found == Scan(rules, Fresh(d, None, resolveRules, world), world)
    requires Stored(before, after, Key(d, world), found)
    ensures Sound(after, destinations, rules, resolveRules, world)
  {
    hide Scan, Fresh, Fits;
    forall e | e in destinations && Key(e, world) in after
      ensures InRange(after[Key(e, world)], rules) && Fits(after[Key(e, world)], e, rules, resolveRules, world)
    {
      assert Interchangeable(d, e, rules, resolveRules, world);
    }
  }

  /** Without protocol matchers the sniffed protocol does not matter. */
  lemma AnswerWithoutProtocol(rules: seq<Rule>, resolveRules: bool, request: Request, world: World)
    requires !RulesNeedProtocol(rules)
    ensures Answer(rules, resolveRules, request, world) ==
      Answer(rules, resolveRules, Request(request.location, None), world)
  {
    ProtocolIrrelevant(rules, request.location, request.protocol, None, resolveRules, world);
  }

  /** The selector has no cache, or a sound one, and the destinations are interchangeable. */
  ghost predicate Faithful(selector: Selector, destinations: iset<NetLocation>, world: World)
    reads selector, selector.cache
  {
    selector.cache != null ==>
      && Sound(selector.cache.entries, destinations, selector.rules, selector.resolveRules, world)
      && Consistent(destinations, selector.rules, selector.resolveRules, world)
  }

  /** One request: a faithful cache agrees with the rules, and stays faithful. */
  method JudgeSound(selector: Selector, request: Request, world: World, ghost destinations: iset<NetLocation>)
    returns (r: Outcome)
    requires selector.Valid() && request.location in destinations
    modifies selector.cache
    ensures selector.Valid()
    ensures old(Faithful(selector, destinations, world)) ==>
      && Faithful(selector, destinations, world)
      && Agree(r, Answer(selector.rules, selector.resolveRules, request, world))
  {
    ghost var rules, resolveRules, d := selector.rules, selector.resolveRules, request.location;
    ghost var before := if selector.cache == null then map[] else selector.cache.entries;
    r := selector.JudgeInner(ResolvedLocation(request.location, None), request.protocol, world);
    hide Scan;
    if selector.cache != null && old(Faithful(selector, destinations, world)) {
      AnswerWithoutProtocol(rules, resolveRules, request, world);
      ProtocolIrrelevant(rules, d, request.protocol, None, resolveRules, world);
      if Key(d, world) !in before {
        StoredSound(before, selector.cache.entries, d, Scan(rules, Fresh(d, None, resolveRules, world), world),
                    destinations, rules, resolveRules, world);
      }
    }
  }

  /** Any run of requests for interchangeable destinations: every answer is the one without the cache. */
  method JudgeAll(selector: Selector, requests: seq<Request>, world: World, ghost destinations: iset<NetLocation>)
    returns (answers: seq<Outcome>)
    requires selector.Valid() && forall i :: 0 <= i < |requests| ==> requests[i].location in destinations
    modifies selector.cache
    ensures |answers| == |requests|
    ensures old(Faithful(selector, destinations, world)) ==> forall i :: 0 <= i < |requests| ==>
      Agree(answers[i], Answer(selector.rules, selector.resolveRules, requests[i], world))
  {
    hide Agree, Answer, Faithful;
    answers := [];
    for i := 0 to |requests|
      invariant selector.Valid() && |answers| == i
      invariant old(Faithful(selector, destinations, world)) ==>
        && Faithful(selector, destinations, world)
        && forall j :: 0 <= j < i ==>
             Agree(answers[j], Answer(selector.rules, selector.resolveRules, requests[j], world))
    {
      var r := JudgeSound(selector, requests[i], world, destinations);
      answers := answers + [r];
    }
  }

  /** The requests' destinations are interchangeable, any two of them. */
  ghost predicate AllInterchangeable(requests: seq<Request>, rules: seq<Rule>, resolveRules: bool, world: World) {
    forall i, j :: 0 <= i < |requests| && 0 <= j < |requests| ==>
      Interchangeable(requests[i].location, requests[j].location, rules, resolveRules, world)
  }

  lemma RequestsConsistent(requests: seq<Request>, rules: seq<Rule>, resolveRules: bool, world: World)
    requires AllInterchangeable(requests, rules, resolveRules, world)
    ensures Consistent((iset i | 0 <= i < |requests| :: requests[i].location), rules, resolveRules, world)
  {
    hide Interchangeable;
  }

  /** A selector in use from the start: without a cache, or if the destinations asked for are
      interchangeable, every answer of the run is the one without the cache. */
  method Route(rules: seq<Rule>, resolveRules: bool, capacity: nat, requests: seq<Request>, world: World)
    returns (answers: seq<Outcome>)
    ensures |answers| == |requests|
    ensures !Caches(rules, resolveRules) || AllInterchangeable(requests, rules, resolveRules, world) ==>
      forall i :: 0 <= i < |requests| ==> Agree(answers[i], Answer(rules, resolveRules, requests[i], world))
  {
    hide Scan, Agree, Answer, Interchangeable, AllInterchangeable, Consistent;
    var selector := new Selector(rules, resolveRules, capacity);
    ghost var destinations := iset i | 0 <= i < |requests| :: requests[i].location;
    if AllInterchangeable(requests, rules, resolveRules, world) {
      RequestsConsistent(requests, rules, resolveRules, world);
    }
    answers := JudgeAll(selector, requests, world, destinations);
  }

  /** And only then: with a cache of any size, asking for `a` and then for `b` gives `b` the answer of
      the rules if and only if the two are interchangeable in this order. */
  method RouteTwo(rules: seq<Rule>, resolveRules: bool, capacity: nat, a: NetLocation, b: NetLocation, world: World)
    returns (first: Outcome, second: Outcome)
    requires Caches(rules, resolveRules)
    ensures Agree(first, Answer(rules, resolveRules, Request(a, None), world))
    ensures Agree(second, Answer(rules, resolveRules, Request(b, None), world)) <==>
      Interchangeable(a, b, rules, resolveRules, world)
  {
    hide Scan, Agree;
    var selector := new Selector(rules, resolveRules, capacity);
    first := selector.JudgeInner(ResolvedLocation(a, None), None, world);
    second := selector.JudgeInner(ResolvedLocation(b, None), None, world);
  }

  // ----- runs with a cache, exactly

  function Found(rules: seq<Rule>, resolveRules: bool, d: NetLocation, world: World): Result<Option<nat>, ScanError> {
    Scan(rules, Fresh(d, None, resolveRules, world), world)
  }

  /** Whose decision the cache holds under each key after the first `n` requests: a request whose key is
      not there puts its own, if it could be decided. */
  function Origins(requests: seq<Request>, n: nat, capacity: nat, rules: seq<Rule>, resolveRules: bool, world: World)
    : Lru<nat>
    requires n <= |requests|
  {
    if n == 0 then Lru(map[], [])
    else
      var c := Origins(requests, n - 1, capacity, rules, resolveRules, world);
      WithRequest(c, capacity, n - 1, requests[n - 1].location, rules, resolveRules, world)
  }

  /** What request `n`, for `d`, makes of it. */
  function WithRequest(c: Lru<nat>, capacity: nat, n: nat, d: NetLocation,
                       rules: seq<Rule>, resolveRules: bool, world: World): Lru<nat>
  {
    if Key(d, world) in c.entries || Found(rules, resolveRules, d, world).Err? then c
    else PutNew(c, capacity, Key(d, world), n)
  }

  /** The entry under a key stems from an earlier request with that key that could be decided. */
  ghost predicate OriginOk(requests: seq<Request>, n: nat, rules: seq<Rule>, resolveRules: bool, world: World,
                           k: NetLocation, j: nat)
  {
    && j < n <= |requests| && Key(requests[j].location, world) == k
    && Found(rules, resolveRules, requests[j].location, world).Ok?
  }

  ghost predicate AllOriginsOk(c: Lru<nat>, requests: seq<Request>, n: nat,
                               rules: seq<Rule>, resolveRules: bool, world: World)
  {
    forall k :: k in c.entries ==> OriginOk(requests, n, rules, resolveRules, world, k, c.entries[k])
  }

  lemma OriginsNext(c: Lru<nat>, capacity: nat, requests: seq<Request>, n: nat,
                    rules: seq<Rule>, resolveRules: bool, world: World)
    requires AllOriginsOk(c, requests, n, rules, resolveRules, world) && n < |requests|
    ensures AllOriginsOk(WithRequest(c, capacity, n, requests[n].location, rules, resolveRules, world),
                         requests, n + 1, rules, resolveRules, world)
  {
    hide Found, Key;
    var next := WithRequest(c, capacity, n, requests[n].location, rules, resolveRules, world);
    forall k | k in next.entries ensures OriginOk(requests, n + 1, rules, resolveRules, world, k, next.entries[k]) {
      if k in c.entries {
        assert OriginOk(requests, n, rules, resolveRules, world, k, c.entries[k]);
      }
    }
  }

  lemma {:induction false} OriginsOk(requests: seq<Request>, n: nat, capacity: nat,
                                     rules: seq<Rule>, resolveRules: bool, world: World)
    requires n <= |requests|
    ensures AllOriginsOk(Origins(requests, n, capacity, rules, resolveRules, world), requests, n,
                         rules, resolveRules, world)
  {
    hide WithRequest, OriginOk;
    if n > 0 {
      OriginsOk(requests, n - 1, capacity, rules, resolveRules, world);
      hide AllOriginsOk;
      OriginsNext(Origins(requests, n - 1, capacity, rules, resolveRules, world), capacity, requests, n - 1,
                  rules, resolveRules, world);
    }
  }

  /** The cache holds the decisions of those requests. */
  ghost predicate Holds(c: Lru<Cached>, origins: Lru<nat>, requests: seq<Request>,
                        rules: seq<Rule>, resolveRules: bool, world: World)
  {
    && c.order == origins.order && c.entries.Keys == origins.entries.Keys
    && forall k :: k in c.entries ==>
         && origins.entries[k] < |requests|
         && var found := Found(rules, resolveRules, requests[origins.entries[k]].location, world);
         found.Ok? && c.entries[k] == ToCached(found.value)
  }

  lemma HoldsPut(c: Lru<Cached>, origins: Lru<nat>, capacity: nat, requests: seq<Request>, n: nat,
                 rules: seq<Rule>, resolveRules: bool, world: World)
    requires Holds(c, origins, requests, rules, resolveRules, world) && n < |requests|
    requires Found(rules, resolveRules, requests[n].location, world).Ok?
    ensures var found := Found(rules, resolveRules, requests[n].location, world);
            var key := Key(requests[n].location, world);
            Holds(PutNew(c, capacity, key, ToCached(found.value)), PutNew(origins, capacity, key, n),
                  requests, rules, resolveRules, world)
  {
    hide Found, Key;
  }

  /** The answer to request `n`, given whose decisions the cache holds. */
  ghost predicate AnsweredExactly(r: Outcome, requests: seq<Request>, n: nat, capacity: nat,
                                  rules: seq<Rule>, resolveRules: bool, world: World)
    requires n < |requests|
  {
    var origins := Origins(requests, n, capacity, rules, resolveRules, world).entries;
    var d := requests[n].location;
    var right := Agree(r, Answer(rules, resolveRules, requests[n], world));
    if Key(d, world) in origins then
      var j := origins[Key(d, world)];
      j < n && (right <==> Interchangeable(requests[j].location, d, rules, resolveRules, world))
    else right
  }

  /** In every run with a cache of any size: a request whose key is not cached is answered as the rules
      do; any other is if and only if the request whose decision the cache holds is interchangeable
      with it. */
  method RouteExactly(rules: seq<Rule>, resolveRules: bool, capacity: nat, requests: seq<Request>, world: World)
    returns (answers: seq<Outcome>)
    requires Caches(rules, resolveRules)
    ensures |answers| == |requests|
    ensures forall n :: 0 <= n < |requests| ==>
      AnsweredExactly(answers[n], requests, n, Max(capacity, 1), rules, resolveRules, world)
  {
    hide AnsweredExactly, Holds;
    var selector := new Selector(rules, resolveRules, capacity);
    answers := [];
    HoldsNothing(requests, rules, resolveRules, world);
    for n := 0 to |requests|
      invariant selector.Valid() && |answers| == n
      invariant Holds(selector.cache.State(), Origins(requests, n, Max(capacity, 1), rules, resolveRules, world),
                      requests, rules, resolveRules, world)
      invariant forall j :: 0 <= j < n ==>
        AnsweredExactly(answers[j], requests, j, Max(capacity, 1), rules, resolveRules, world)
    {
      var r := JudgeNext(selector, requests, n, world);
      answers := answers + [r];
    }
  }

  lemma HoldsNothing(requests: seq<Request>, rules: seq<Rule>, resolveRules: bool, world: World)
    ensures Holds(Lru(map[], []), Lru(map[], []), requests, rules, resolveRules, world)
  {
  }

  /** One request of such a run. */
  method JudgeNext(selector: Selector, requests: seq<Request>, n: nat, world: World) returns (r: Outcome)
    requires selector.Valid() && selector.cache != null && n < |requests|
    requires Holds(selector.cache.State(),
                   Origins(requests, n, selector.cache.capacity, selector.rules, selector.resolveRules, world),
                   requests, selector.rules, selector.resolveRules, world)
    modifies selector.cache
    ensures selector.Valid()
    ensures Holds(selector.cache.State(),
                  Origins(requests, n + 1, selector.cache.capacity, selector.rules, selector.resolveRules, world),
                  requests, selector.rules, selector.resolveRules, world)
    ensures AnsweredExactly(r, requests, n, selector.cache.capacity, selector.rules, selector.resolveRules, world)
  {
    ghost var rules, resolveRules, capacity := selector.rules, selector.resolveRules, selector.cache.capacity;
    ghost var d, protocol := requests[n].location, requests[n].protocol;
    ghost var before, origins := selector.cache.State(), Origins(requests, n, capacity, rules, resolveRules, world);
    OriginsOk(requests, n, capacity, rules, resolveRules, world);
    AnswerWithoutProtocol(rules, resolveRules, requests[n], world);
    ProtocolIrrelevant(rules, d, protocol, None, resolveRules, world);
    r := selector.JudgeInner(ResolvedLocation(requests[n].location, None), requests[n].protocol, world);
    hide Scan, Agree, Key;
    if Key(d, world) in before.entries {
      assert OriginOk(requests, n, rules, resolveRules, world, Key(d, world), origins.entries[Key(d, world)]);
    } else if Found(rules, resolveRules, d, world).Ok? {
      HoldsPut(before, origins, capacity, requests, n, rules, resolveRules, world);
    }
  }

  // ----- destinations that are interchangeable

  /** ASCII destinations in any spelling that no hostname mask tells apart; in particular, any ASCII
      destinations for rules without hostname masks. */
  lemma CaseBlindInterchangeable(a: NetLocation, b: NetLocation, rules: seq<Rule>, resolveRules: bool, world: World)
    requires CaseBlind(world) && AsciiDestination(a) && AsciiDestination(b)
    requires NoHostnameMask(rules) || SpelledAlike(rules, a, b)
    ensures Interchangeable(a, b, rules, resolveRules, world)
  {
    hide Scan, Fresh, CaseBlind, NoHostnameMask, AsciiDestination, Key, SpelledAlike;
    if NoHostnameMask(rules) {
      NoMaskNoSpelling(rules, a, b);
    }
    if Key(a, world) == Key(b, world) {
      CaseVariantsDecidedAlike(rules, a, b, None, resolveRules, world);
    }
  }

  /** Destinations that are their own key, for any rules and any resolver. */
  lemma CanonicalInterchangeable(a: NetLocation, b: NetLocation, rules: seq<Rule>, resolveRules: bool, world: World)
    requires Key(a, world) == a && Key(b, world) == b
    ensures Interchangeable(a, b, rules, resolveRules, world)
  {
    hide Scan, Fresh;
  }

  /** Spellings that different rules decide, if the rules act alike. */
  lemma SameActionInterchangeable(a: NetLocation, b: NetLocation, rules: seq<Rule>, resolveRules: bool, world: World)
    requires var f := Scan(rules, Fresh(a, None, resolveRules, world), world);
             var g := Scan(rules, Fresh(b, None, resolveRules, world), world);
             && f.Ok? && f.value.Some? && g.Ok? && g.value.Some?
             && rules[f.value.value].action == rules[g.value.value].action
    ensures Interchangeable(a, b, rules, resolveRules, world)
  {
    hide Scan, Fresh;
  }

  /** One rule, for the host "a". */
  function HostRule(): seq<Rule> {
    [Rule([Location(HostMask())], Allow(None, 0))]
  }

  function HostMask(): Mask {
    Mask(Hostname("a"), seq(128, _ => true), 0)
  }

  function Host(name: string): NetLocation {
    NetLocation(Hostname(name), 80)
  }

  lemma SpellingVerdicts(name: string, resolveRules: bool, world: World)
    requires name == "a" || name == "A"
    ensures VerdictOf(Location(HostMask()), Fresh(Host(name), None, resolveRules, world), world) == Truth(name == "a")
  {
    SpellingDomains();
    assert HostMask().netmask[0] != NoBits()[0];
    hide MatchesDomain, MaskedVerdict, DestinationIp, DomainMatches;
  }

  lemma SpellingDomains()
    ensures MatchesDomain("a", "a") && !MatchesDomain("a", "A")
  {
    assert "A"[0] != "a"[0];
    assert "A"[0..] == "A";
    assert !EndsWith("A", "a");
  }

  lemma SpellingScan(name: string, resolveRules: bool, world: World)
    requires name == "a" || name == "A"
    ensures Scan(HostRule(), Fresh(Host(name), None, resolveRules, world), world) ==
      Ok(if name == "a" then Some(0) else None)
  {
    SpellingVerdicts(name, resolveRules, world);
    hide VerdictOf, Fresh, HostMask, Host;
    var q := Fresh(Host(name), None, resolveRules, world);
    var matchers := [Location(HostMask())];
    assert HostRule()[0].matchers == matchers;
    assert RuleFrom(matchers, 1, q, world) == NoMatch;
    assert RuleFrom(matchers, 0, q, world) == Truth(name == "a");
    assert ScanFrom(HostRule(), 1, q, world) == Ok(None);
  }

  lemma SameKeys(world: World)
    requires CaseBlind(world)
    ensures Key(Host("a"), world) == Key(Host("A"), world)
  {
    assert Lower("A") == "a" && Lower("a") == "a";
    assert IsAscii("A") && IsAscii("a");
    assert world.lowercase("A") == Lower("A") && world.lowercase("a") == Lower("a");
  }

  /** With a hostname mask the spelling matters to the rule but not to the cache: "A" is answered as
      "a" was, although the rules block it. */
  method SpellingMatters(world: World) returns (first: Outcome, second: Outcome)
    requires CaseBlind(world)
    ensures Agree(first, Answer(HostRule(), true, Request(Host("a"), None), world))
    ensures second == Ok(Allowed(0, ResolvedLocation(Host("A"), None)))
    ensures Answer(HostRule(), true, Request(Host("A"), None), world) == Ok(Blocked)
  {
    SpellingScan("a", true, world);
    SpellingScan("A", true, world);
    SameKeys(world);
    assert !RuleNeedsProtocol(HostRule()[0]);
    hide Scan, CaseBlind, Host, HostMask, Agree;
    var selector := new Selector(HostRule(), true, 1);
    first := selector.JudgeInner(ResolvedLocation(Host("a"), None), None, world);
    second := selector.JudgeInner(ResolvedLocation(Host("A"), None), None, world);
  }
}
