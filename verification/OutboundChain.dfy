/** Validation of the outbounds (src/backend_config.rs, validate_outbounds and validate_chain_dfs): tags
    are unique, every hop of a chain names a tag, and no chain leads back to itself.  The
    search colours tags grey while they are being visited and black when they are done. */
module OutboundChain {
  import opened Common

  datatype Outbound = Outbound(tag: string, chain: Option<seq<string>>)

  datatype ConfigError =
    | BlankTag | DuplicateTag(tag: string) | EmptyChain(tag: string)
    | UnknownHop(tag: string, hop: string) | Cycle(tag: string)
    | BlankDefault | UnknownDefault(tag: string)

  datatype Colour = Grey | Black

  type Chains = map<string, seq<string>>

  /** Characters that trimming removes. */
  predicate IsSpace(c: char) {
    c in {'\t', '\n', '\U{0B}', '\U{0C}', '\r', ' ', '\U{85}', '\U{A0}', '\U{1680}', '\U{2028}', '\U{2029}', '\U{202F}',
          '\U{205F}', '\U{3000}'}
    || '\U{2000}' <= c <= '\U{200A}'
  }

  predicate IsBlank(s: string) {
    forall i :: 0 <= i < |s| ==> IsSpace(s[i])
  }

  // ----- the property

  predicate Edge(chains: Chains, from: string, to: string) {
    from in chains && to in chains[from]
  }

  ghost predicate IsPath(chains: Chains, p: seq<string>) {
    forall i :: 0 <= i < |p| - 1 ==> Edge(chains, p[i], p[i + 1])
  }

  /** `tag` reaches itself through one hop or more. */
  ghost predicate OnCycle(chains: Chains, tag: string) {
    exists p: seq<string> :: |p| >= 2 && p[0] == tag && p[|p| - 1] == tag && IsPath(chains, p)
  }

  ghost predicate HopsKnown(chains: Chains, tags: set<string>) {
    forall t, h :: t in chains && h in chains[t] ==> h in tags
  }

  ghost predicate Acyclic(chains: Chains) {
    forall t :: !OnCycle(chains, t)
  }

  // ----- finish order

  /** Every hop of a finished tag was finished before it. */
  ghost predicate HopsFirst(chains: Chains, finished: seq<string>) {
    forall i, h :: 0 <= i < |finished| && Edge(chains, finished[i], h) ==> h in finished[..i]
  }

  lemma {:induction false} PathDescends(chains: Chains, finished: seq<string>, p: seq<string>, i: nat) returns (j: nat)
    requires HopsFirst(chains, finished) && IsPath(chains, p) && |p| >= 1
    requires i < |finished| && finished[i] == p[0]
    ensures j < |finished| && finished[j] == p[|p| - 1]
    ensures j <= i && (|p| >= 2 ==> j < i)
  {
    if |p| == 1 {
      return i;
    }
    assert Edge(chains, p[0], p[1]);
    assert p[1] in finished[..i];
    var k :| 0 <= k < i && finished[..i][k] == p[1];
    assert IsPath(chains, p[1..]) by {
      forall n | 0 <= n < |p[1..]| - 1 ensures Edge(chains, p[1..][n], p[1..][n + 1]) {
        assert Edge(chains, p[n + 1], p[n + 2]);
      }
    }
    j := PathDescends(chains, finished, p[1..], k);
  }

  ghost predicate NoRepeats(s: seq<string>) {
    forall i, j :: 0 <= i < j < |s| ==> s[i] != s[j]
  }

  /** If everything with a chain is finished, nothing lies on a cycle. */
  lemma FinishedAcyclic(chains: Chains, finished: seq<string>)
    requires HopsFirst(chains, finished) && NoRepeats(finished)
    requires forall t :: t in chains ==> t in finished
    ensures Acyclic(chains)
  {
    forall t ensures !OnCycle(chains, t) {
      if OnCycle(chains, t) {
        var p :| |p| >= 2 && p[0] == t && p[|p| - 1] == t && IsPath(chains, p);
        assert Edge(chains, p[0], p[1]);
        var i :| 0 <= i < |finished| && finished[i] == t;
        var j := PathDescends(chains, finished, p, i);
      }
    }
  }

  // ----- the search

  class ChainSearch {
    const chains: Chains
    const tags: set<string>
    var colours: map<string, Colour>
    /** The grey tags, in the order they were entered. */
    ghost var stack: seq<string>
    /** The black tags, in the order they were finished. */
    ghost var finished: seq<string>

    ghost predicate Valid()
      reads this
    {
      SearchOk(chains, tags, colours, stack, finished)
    }

    constructor (chains: Chains, tags: set<string>)
      requires chains.Keys <= tags
      ensures Valid() && stack == [] && finished == [] && this.chains == chains && this.tags == tags
    {
      this.chains, this.tags, colours, stack, finished := chains, tags, map[], [], [];
    }

    /** Visits `tag`, the next hop after the top of the stack.  Success finishes it and leaves the
        stack as it was; failure names a real defect.  `left` bounds the tags not coloured yet. */
    method Visit(tag: string, ghost left: nat) returns (r: Result<(), ConfigError>)
      requires Valid() && tag in tags && |tags - colours.Keys| <= left
      requires stack != [] ==> Edge(chains, stack[|stack| - 1], tag)
      modifies this
      decreases left, 0
      ensures r.Ok? ==>
        Valid() && stack == old(stack) && Elems(old(finished)) <= Elems(finished) && tag in Elems(finished)
      ensures r.Err? ==> Defect(chains, tags, r.error)
      ensures |tags - colours.Keys| <= left
    {
      hide SearchOk, Defect, Edge, IsPath, OnCycle, Elems, HopsDone;
      Coloured(chains, tags, colours, stack, finished, tag);
      if tag in colours {
        if colours[tag] == Grey {
          GreyIsCycle(chains, stack, tag);
          CycleDefect(chains, tags, tag);
          return Err(Cycle(tag));
        }
        return Ok(());
      }
      ghost var entered := stack;
      Begin(tag);
      var chain := if tag in chains then chains[tag] else [];
      r := VisitHops(tag, chain, left - 1);
      if r.Ok? {
        End(tag, entered);
      }
    }

    method Begin(tag: string)
      requires Valid() && tag in tags && tag !in colours
      requires stack != [] ==> Edge(chains, stack[|stack| - 1], tag)
      modifies this`colours, this`stack
      ensures Valid() && stack == old(stack) + [tag] && tag !in old(stack)
      ensures |tags - colours.Keys| == |tags - old(colours.Keys)| - 1
    {
      hide SearchOk, Edge, Elems;
      Coloured(chains, tags, colours, stack, finished, tag);
      Enter(chains, tags, colours, stack, finished, tag);
      ColourShrinks(tags, colours, tag, Grey);
      colours, stack := colours[tag := Grey], stack + [tag];
    }

    method End(tag: string, ghost entered: seq<string>)
      requires Valid() && tag in tags && stack == entered + [tag] && tag !in entered
      requires var chain := if tag in chains then chains[tag] else []; HopsDone(chain, |chain|, Elems(finished), tags)
      modifies this
      ensures Valid() && stack == entered && Elems(finished) == Elems(old(finished)) + {tag}
      ensures |tags - colours.Keys| == |tags - old(colours.Keys)|
    {
      hide SearchOk, Edge, HopsDone;
      Coloured(chains, tags, colours, stack, finished, tag);
      Leave(chains, tags, colours, entered, finished, tag);
      ElemsAppend(finished, tag);
      ColourShrinks(tags, colours, tag, Black);
      colours := colours[tag := Black];
      stack, finished := entered, finished + [tag];
    }

    /** Visits the hops of `tag`, which is on top of the stack. */
    method VisitHops(tag: string, chain: seq<string>, ghost left: nat) returns (r: Result<(), ConfigError>)
      requires Valid() && chain == (if tag in chains then chains[tag] else [])
      requires stack != [] && stack[|stack| - 1] == tag
      requires |tags - colours.Keys| <= left
      modifies this
      decreases left, 1
      ensures r.Ok? ==> Valid() && stack == old(stack) && Elems(old(finished)) <= Elems(finished)
      ensures r.Ok? ==> HopsDone(chain, |chain|, Elems(finished), tags)
      ensures r.Err? ==> Defect(chains, tags, r.error)
      ensures |tags - colours.Keys| <= left
    {
      hide SearchOk, Defect, Edge, IsPath, OnCycle, Elems, HopsDone;
      HopsDoneNone(chain, Elems(finished), tags);
      var i := 0;
      while i < |chain|
        invariant 0 <= i <= |chain|
        invariant Valid() && stack == old(stack) && Elems(old(finished)) <= Elems(finished)
        invariant |tags - colours.Keys| <= left
        invariant HopsDone(chain, i, Elems(finished), tags)
      {
        HopEdge(chains, tag, chain, i);
        var hop := chain[i];
        if hop !in tags {
          HopDefect(chains, tags, tag, hop);
          return Err(UnknownHop(tag, hop));
        }
        ghost var before := Elems(finished);
        r := Visit(hop, left);
        if r.Err? {
          return;
        }
        HopsDoneNext(chain, i, before, Elems(finished), tags);
        i := i + 1;
      }
      return Ok(());
    }
  }

  /** The first `n` hops of a chain are known and finished. */
  ghost predicate HopsDone(chain: seq<string>, n: nat, finished: set<string>, tags: set<string>) {
    forall k :: 0 <= k < n && k < |chain| ==> chain[k] in finished && chain[k] in tags
  }

  lemma HopsDoneNone(chain: seq<string>, finished: set<string>, tags: set<string>)
    ensures HopsDone(chain, 0, finished, tags)
  {
  }

  lemma HopsDoneNext(chain: seq<string>, n: nat, before: set<string>, finished: set<string>, tags: set<string>)
    requires HopsDone(chain, n, before, tags) && before <= finished
    requires n < |chain| && chain[n] in finished && chain[n] in tags
    ensures HopsDone(chain, n + 1, finished, tags)
  {
  }

  lemma HopEdge(chains: Chains, tag: string, chain: seq<string>, i: nat)
    requires i < |chain| && chain == if tag in chains then chains[tag] else []
    ensures Edge(chains, tag, chain[i])
  {
  }

  /** Colours, stack and finish order fit together. */
  ghost predicate SearchOk(chains: Chains, tags: set<string>, colours: map<string, Colour>, stack: seq<string>,
      finished: seq<string>) {
    && chains.Keys <= tags
    && (forall t :: t in colours ==> t in tags)
    && (forall t :: t in colours && colours[t] == Grey <==> t in stack)
    && (forall t :: t in colours && colours[t] == Black <==> t in finished)
    && IsPath(chains, stack)
    && NoRepeats(finished) && HopsFirst(chains, finished)
    && (forall t, h :: t in finished && Edge(chains, t, h) ==> h in tags)
  }

  lemma Coloured(chains: Chains, tags: set<string>, colours: map<string, Colour>, stack: seq<string>,
      finished: seq<string>, tag: string)
    requires SearchOk(chains, tags, colours, stack, finished)
    ensures tag in colours && colours[tag] == Grey <==> tag in stack
    ensures tag in colours && colours[tag] == Black <==> tag in Elems(finished)
    ensures IsPath(chains, stack)
  {
  }

  lemma Enter(chains: Chains, tags: set<string>, colours: map<string, Colour>, stack: seq<string>,
      finished: seq<string>, tag: string)
    requires SearchOk(chains, tags, colours, stack, finished) && tag in tags && tag !in colours
    requires stack != [] ==> Edge(chains, stack[|stack| - 1], tag)
    ensures SearchOk(chains, tags, colours[tag := Grey], stack + [tag], finished)
  {
    StackGrows(chains, stack, tag);
  }

  lemma Leave(chains: Chains, tags: set<string>, colours: map<string, Colour>, stack: seq<string>,
      finished: seq<string>, tag: string)
    requires SearchOk(chains, tags, colours, stack + [tag], finished) && tag in tags && tag !in stack
    requires var chain := if tag in chains then chains[tag] else []; HopsDone(chain, |chain|, Elems(finished), tags)
    ensures SearchOk(chains, tags, colours[tag := Black], stack, finished + [tag])
  {
    assert forall h :: Edge(chains, tag, h) ==> h in finished && h in tags;
    assert tag in stack + [tag];
    FinishNext(chains, finished, tag);
    StackShrinks(chains, stack, tag);
  }

  lemma CycleDefect(chains: Chains, tags: set<string>, tag: string)
    requires OnCycle(chains, tag)
    ensures Defect(chains, tags, Cycle(tag))
  {
  }

  lemma HopDefect(chains: Chains, tags: set<string>, tag: string, hop: string)
    requires Edge(chains, tag, hop) && hop !in tags
    ensures Defect(chains, tags, UnknownHop(tag, hop))
  {
  }

  /** An error of the search names something that is really there. */
  ghost predicate Defect(chains: Chains, tags: set<string>, e: ConfigError) {
    match e
    case UnknownHop(tag, hop) => Edge(chains, tag, hop) && hop !in tags
    case Cycle(tag) => OnCycle(chains, tag)
    case _ => false
  }

  lemma GreyIsCycle(chains: Chains, stack: seq<string>, tag: string)
    requires IsPath(chains, stack) && tag in stack && Edge(chains, stack[|stack| - 1], tag)
    ensures OnCycle(chains, tag)
  {
    var i :| 0 <= i < |stack| && stack[i] == tag;
    var p := stack[i..] + [tag];
    forall n | 0 <= n < |p| - 1 ensures Edge(chains, p[n], p[n + 1]) {
      if n + 1 < |p| - 1 {
        assert Edge(chains, stack[i + n], stack[i + n + 1]);
      }
    }
    assert p[0] == tag && p[|p| - 1] == tag;
  }

  lemma StackGrows(chains: Chains, stack: seq<string>, tag: string)
    requires IsPath(chains, stack) && (stack != [] ==> Edge(chains, stack[|stack| - 1], tag))
    ensures IsPath(chains, stack + [tag])
  {
    var p := stack + [tag];
    forall n | 0 <= n < |p| - 1 ensures Edge(chains, p[n], p[n + 1]) {
      if n + 1 < |stack| {
        assert Edge(chains, stack[n], stack[n + 1]);
      }
    }
  }

  lemma StackShrinks(chains: Chains, stack: seq<string>, tag: string)
    requires IsPath(chains, stack + [tag])
    ensures IsPath(chains, stack)
  {
    var p := stack + [tag];
    forall n | 0 <= n < |stack| - 1 ensures Edge(chains, stack[n], stack[n + 1]) {
      assert Edge(chains, p[n], p[n + 1]);
    }
  }

  lemma FinishNext(chains: Chains, finished: seq<string>, tag: string)
    requires HopsFirst(chains, finished) && NoRepeats(finished) && tag !in finished
    requires forall h :: Edge(chains, tag, h) ==> h in finished
    ensures HopsFirst(chains, finished + [tag]) && NoRepeats(finished + [tag])
  {
    var more := finished + [tag];
    forall i, h | 0 <= i < |more| && Edge(chains, more[i], h) ensures h in more[..i] {
      assert more[..i] == finished[..i];
      if i == |finished| {
        assert finished[..i] == finished;
      }
    }
  }

  lemma ColourShrinks(tags: set<string>, colours: map<string, Colour>, tag: string, colour: Colour)
    requires tag in tags
    ensures tag !in colours ==> |tags - colours[tag := colour].Keys| == |tags - colours.Keys| - 1
    ensures tag in colours ==> colours[tag := colour].Keys == colours.Keys
  {
    if tag !in colours {
      assert tags - colours.Keys == (tags - colours[tag := colour].Keys) + {tag};
    }
  }

  // ----- the whole validation

  function TagsOf(outbounds: seq<Outbound>): set<string> {
    set i | 0 <= i < |outbounds| :: outbounds[i].tag
  }

  /** The chains, by tag. */
  function ChainsOf(outbounds: seq<Outbound>): Chains {
    if outbounds == [] then map[]
    else
      var n := |outbounds| - 1;
      var rest := ChainsOf(outbounds[..n]);
      if outbounds[n].chain.Some? then rest[outbounds[n].tag := outbounds[n].chain.value] else rest
  }

  ghost predicate TagsSound(outbounds: seq<Outbound>) {
    && (forall i :: 0 <= i < |outbounds| ==> !IsBlank(outbounds[i].tag) && outbounds[i].chain != Some([]))
    && (forall i, j :: 0 <= i < j < |outbounds| ==> outbounds[i].tag != outbounds[j].tag)
  }

  lemma {:induction false} ChainsHaveTags(outbounds: seq<Outbound>)
    ensures ChainsOf(outbounds).Keys <= TagsOf(outbounds)
  {
    if outbounds != [] {
      var n := |outbounds| - 1;
      ChainsHaveTags(outbounds[..n]);
      forall t | t in TagsOf(outbounds[..n]) ensures t in TagsOf(outbounds) {
        var i :| 0 <= i < n && outbounds[..n][i].tag == t;
        assert outbounds[i].tag == t;
      }
      assert outbounds[n].tag in TagsOf(outbounds);
    }
  }

  ghost predicate DefaultSound(outbounds: seq<Outbound>, defaultOut: Option<string>) {
    defaultOut.Some? ==> !IsBlank(defaultOut.value) && defaultOut.value in TagsOf(outbounds)
  }

  /** Each error is about something that is there. */
  ghost predicate Justified(outbounds: seq<Outbound>, defaultOut: Option<string>, e: ConfigError) {
    match e
    case BlankTag => exists i :: 0 <= i < |outbounds| && IsBlank(outbounds[i].tag)
    case DuplicateTag(tag) =>
      exists i, j :: 0 <= i < j < |outbounds| && outbounds[i].tag == tag && outbounds[j].tag == tag
    case EmptyChain(tag) =>
      exists i :: 0 <= i < |outbounds| && outbounds[i].tag == tag && outbounds[i].chain == Some([])
    case BlankDefault => defaultOut.Some? && IsBlank(defaultOut.value)
    case UnknownDefault(tag) => defaultOut == Some(tag) && tag !in TagsOf(outbounds)
    case _ => Defect(ChainsOf(outbounds), TagsOf(outbounds), e)
  }

  /** The tag and chain part of the validation accepts exactly the sound configurations. */
  method ValidateOutbounds(outbounds: seq<Outbound>, defaultOut: Option<string>) returns (r: Result<(), ConfigError>)
    ensures r.Ok? <==>
      && TagsSound(outbounds) && DefaultSound(outbounds, defaultOut)
      && HopsKnown(ChainsOf(outbounds), TagsOf(outbounds)) && Acyclic(ChainsOf(outbounds))
    ensures r.Err? ==> Justified(outbounds, defaultOut, r.error)
  {
    var collected := CollectTags(outbounds);
    if collected.Err? {
      return Err(collected.error);
    }
    var (tags, chains) := collected.value;
    ChainsHaveTags(outbounds);
    r := SearchAll(outbounds, chains, tags);
    if r.Err? {
      DefectExcludes(chains, tags, r.error);
      return;
    }
    if defaultOut.Some? {
      if IsBlank(defaultOut.value) {
        return Err(BlankDefault);
      }
      if defaultOut.value !in tags {
        return Err(UnknownDefault(defaultOut.value));
      }
    }
  }

  lemma DefectExcludes(chains: Chains, tags: set<string>, e: ConfigError)
    requires Defect(chains, tags, e)
    ensures !(HopsKnown(chains, tags) && Acyclic(chains))
  {
    if e.UnknownHop? {
      assert e.tag in chains && e.hop in chains[e.tag] && e.hop !in tags;
    }
  }

  method CollectTags(outbounds: seq<Outbound>) returns (r: Result<(set<string>, Chains), ConfigError>)
    ensures r.Ok? <==> TagsSound(outbounds)
    ensures r.Ok? ==> r.value == (TagsOf(outbounds), ChainsOf(outbounds))
    ensures r.Err? ==> Justified(outbounds, None, r.error)
    ensures r.Err? ==> r.error.BlankTag? || r.error.DuplicateTag? || r.error.EmptyChain?
  {
    var tags: set<string>, chains: Chains := {}, map[];
    var i := 0;
    assert TagsOf(outbounds[..0]) == {};
    while i < |outbounds|
      invariant 0 <= i <= |outbounds|
      invariant TagsSound(outbounds[..i])
      invariant tags == TagsOf(outbounds[..i]) && chains == ChainsOf(outbounds[..i])
    {
      var outbound := outbounds[i];
      if IsBlank(outbound.tag) {
        return Err(BlankTag);
      }
      if outbound.tag in tags {
        var j :| 0 <= j < i && outbounds[..i][j].tag == outbound.tag;
        assert outbounds[j].tag == outbound.tag;
        return Err(DuplicateTag(outbound.tag));
      }
      tags := tags + {outbound.tag};
      if outbound.chain.Some? {
        if outbound.chain.value == [] {
          return Err(EmptyChain(outbound.tag));
        }
        chains := chains[outbound.tag := outbound.chain.value];
      }
      OneMore(outbounds, i);
      i := i + 1;
    }
    assert outbounds[..i] == outbounds;
    return Ok((tags, chains));
  }

  lemma OneMore(outbounds: seq<Outbound>, i: nat)
    requires i < |outbounds| && TagsSound(outbounds[..i])
    ensures TagsOf(outbounds[..i + 1]) == TagsOf(outbounds[..i]) + {outbounds[i].tag}
    ensures ChainsOf(outbounds[..i + 1]) ==
      if outbounds[i].chain.Some? then ChainsOf(outbounds[..i])[outbounds[i].tag := outbounds[i].chain.value]
      else ChainsOf(outbounds[..i])
    ensures !IsBlank(outbounds[i].tag) && outbounds[i].chain != Some([]) ==>
      (outbounds[i].tag !in TagsOf(outbounds[..i]) ==> TagsSound(outbounds[..i + 1]))
  {
    var more, some := outbounds[..i + 1], outbounds[..i];
    assert more[..i] == some && more[i] == outbounds[i];
    forall t ensures t in TagsOf(more) <==> t in TagsOf(some) || t == outbounds[i].tag {
      if t in TagsOf(some) {
        var k :| 0 <= k < i && some[k].tag == t;
        assert more[k].tag == t;
      }
      if t == outbounds[i].tag {
        assert more[i].tag == t;
      }
      if t in TagsOf(more) {
        var k :| 0 <= k < i + 1 && more[k].tag == t;
        if k < i {
          assert some[k].tag == t;
        }
      }
    }
  }

  /** Every tag is a root of the search. */
  method SearchAll(outbounds: seq<Outbound>, chains: Chains, tags: set<string>) returns (r: Result<(), ConfigError>)
    requires tags == TagsOf(outbounds) && chains == ChainsOf(outbounds) && chains.Keys <= tags
    ensures r.Ok? <==> HopsKnown(chains, tags) && Acyclic(chains)
    ensures r.Err? ==> Defect(chains, tags, r.error)
  {
    hide SearchOk, Edge;
    var search := new ChainSearch(chains, tags);
    var i := 0;
    while i < |outbounds|
      invariant 0 <= i <= |outbounds|
      invariant fresh(search) && search.Valid() && search.stack == []
      invariant search.chains == chains && search.tags == tags
      invariant forall k :: 0 <= k < i ==> outbounds[k].tag in Elems(search.finished)
    {
      assert outbounds[i].tag in tags;
      r := search.Visit(outbounds[i].tag, |tags - search.colours.Keys|);
      if r.Err? {
        DefectExcludes(chains, tags, r.error);
        return;
      }
      i := i + 1;
    }
    AllFinished(chains, tags, search.colours, search.finished, outbounds);
    return Ok(());
  }

  lemma AllFinished(chains: Chains, tags: set<string>, colours: map<string, Colour>, finished: seq<string>,
      outbounds: seq<Outbound>)
    requires SearchOk(chains, tags, colours, [], finished) && tags == TagsOf(outbounds)
    requires forall k :: 0 <= k < |outbounds| ==> outbounds[k].tag in Elems(finished)
    ensures HopsKnown(chains, tags) && Acyclic(chains)
  {
    forall t | t in chains ensures t in finished {
      assert t in tags;
    }
    forall t, h | t in chains && h in chains[t] ensures h in tags {
      assert Edge(chains, t, h);
    }
    FinishedAcyclic(chains, finished);
  }
}
