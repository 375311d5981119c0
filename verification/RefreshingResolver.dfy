/** RefreshingResolver (src/resolver.rs): any number of lookups share one inner resolver, which is
    rebuilt when it has been idle too long or when a lookup fails with a connection error.

    Every point where a lookup can be interleaved with the others is a step of its own, and at
    every point where it awaits it may be cancelled.  Resolvers are numbered by the rebuild
    that installed them; 0 is the first one. */
module RefreshingResolver {
  import opened Common

  datatype Pc =
    | CheckIdle
    | AwaitIdleLock | RecheckIdle | AwaitIdleFactory | InstallIdle | BumpIdle
    | SampleGeneration | ReadInner | AwaitFirst | MarkActive
    | AwaitErrorLock | CompareGeneration
    | RereadInner | AwaitRetry
    | AwaitErrorFactory | InstallError | BumpError | AwaitFresh
    | MarkLocked
    | Finished

  /** `sampled` is the generation seen before the first call, `used` the resolver of the first call,
      `retried` that of the second, `calls` the number of calls made. */
  datatype Lookup = Lookup(pc: Pc, sampled: nat, used: nat, retried: nat, calls: nat)

  datatype Cause = Idle | OnError

  /** A rebuild that succeeded: by which lookup, why, and which resolver it replaced; for one caused
      by an error, the generation that lookup had sampled and the resolver that had failed. */
  datatype Rebuild = Rebuild(author: nat, cause: Cause, sampled: nat, failed: nat, at: nat)

  datatype Policy = Policy(maxIdle: nat, retryOnce: bool)

  datatype State = State(now: nat, lock: Option<nat>, inner: nat, generation: nat, lastActivity: Option<nat>,
    lookups: map<nat, Lookup>, rebuilds: seq<Rebuild>)

  datatype Reply = Answer | ConnectionError | OtherError

  /** Time passes, a lookup starts, moves on (what it awaits, if anything, giving `reply`), or is dropped. */
  datatype Action = Tick(elapsed: nat) | Start(id: nat) | Move(id: nat, reply: Reply) | Cancel(id: nat)

  const INITIAL := State(0, None, 0, 0, None, map[], [])

  predicate IsIdle(s: State, policy: Policy) {
    s.lastActivity.Some? && s.now > s.lastActivity.value + policy.maxIdle
  }

  /** Holding the refresh lock. */
  predicate Locked(pc: Pc) {
    match pc
    case RecheckIdle | AwaitIdleFactory | InstallIdle | BumpIdle | CompareGeneration | RereadInner | AwaitRetry
       | AwaitErrorFactory | InstallError | BumpError | AwaitFresh | MarkLocked => true
    case _ => false
  }

  /** The places where a lookup awaits, and can be dropped. */
  predicate Awaits(pc: Pc) {
    match pc
    case AwaitIdleLock | AwaitIdleFactory | InstallIdle | ReadInner | AwaitFirst
       | AwaitErrorLock | RereadInner | AwaitRetry
       | AwaitErrorFactory | InstallError | AwaitFresh => true
    case _ => false
  }

  function At(s: State, id: nat, l: Lookup): State {
    s.(lookups := s.lookups[id := l])
  }

  /** Releases the lock and goes on. */
  function Release(s: State, id: nat, l: Lookup): State {
    At(s, id, l).(lock := None)
  }

  function Install(s: State, id: nat, l: Lookup, cause: Cause): State {
    s.(inner := s.inner + 1, rebuilds := s.rebuilds + [Rebuild(id, cause, l.sampled, l.used, s.now)])
  }

  /** The idle check and the rebuild it may lead to. */
  predicate InIdlePhase(pc: Pc) {
    match pc
    case CheckIdle | AwaitIdleLock | RecheckIdle | AwaitIdleFactory | InstallIdle | BumpIdle => true
    case _ => false
  }

  /** From a connection error on. */
  predicate InErrorPhase(pc: Pc) {
    match pc
    case AwaitErrorLock | CompareGeneration | RereadInner | AwaitRetry | AwaitErrorFactory | InstallError | BumpError
       | AwaitFresh | MarkLocked => true
    case _ => false
  }

  function MoveIdle(s: State, id: nat, l: Lookup, reply: Reply, policy: Policy): State {
    match l.pc
    case CheckIdle => At(s, id, l.(pc := if IsIdle(s, policy) then AwaitIdleLock else SampleGeneration))
    case AwaitIdleLock => if s.lock.Some? then s else At(s, id, l.(pc := RecheckIdle)).(lock := Some(id))
    case RecheckIdle =>
      if IsIdle(s, policy) then At(s, id, l.(pc := AwaitIdleFactory)) else Release(s, id, l.(pc := SampleGeneration))
    case AwaitIdleFactory =>
      if reply.Answer? then At(s, id, l.(pc := InstallIdle)) else Release(s, id, l.(pc := SampleGeneration))
    case InstallIdle => At(Install(s, id, l, Idle), id, l.(pc := BumpIdle))
    case BumpIdle =>
      Release(s, id, l.(pc := SampleGeneration)).(generation := s.generation + 1, lastActivity := Some(s.now))
    case _ => s
  }

  /** The first call. */
  function MoveFirst(s: State, id: nat, l: Lookup, reply: Reply, policy: Policy): State {
    match l.pc
    case SampleGeneration => At(s, id, l.(pc := ReadInner, sampled := s.generation))
    case ReadInner => At(s, id, l.(pc := AwaitFirst, used := s.inner, calls := l.calls + 1))
    case AwaitFirst =>
      At(s, id, l.(pc := if reply.Answer? then MarkActive
                         else if policy.retryOnce && reply.ConnectionError? then AwaitErrorLock
                         else Finished))
    case MarkActive => At(s, id, l.(pc := Finished)).(lastActivity := Some(s.now))
    case _ => s
  }

  /** After a connection error: retry on a resolver somebody else rebuilt, or rebuild it. */
  function MoveError(s: State, id: nat, l: Lookup, reply: Reply): State {
    match l.pc
    case AwaitErrorLock => if s.lock.Some? then s else At(s, id, l.(pc := CompareGeneration)).(lock := Some(id))
    case CompareGeneration => At(s, id, l.(pc := if s.generation != l.sampled then RereadInner else AwaitErrorFactory))
    case RereadInner => At(s, id, l.(pc := AwaitRetry, retried := s.inner, calls := l.calls + 1))
    case AwaitRetry =>
      if reply.Answer? then At(s, id, l.(pc := MarkLocked)) else Release(s, id, l.(pc := Finished))
    case AwaitErrorFactory =>
      if reply.Answer? then At(s, id, l.(pc := InstallError)) else Release(s, id, l.(pc := Finished))
    case InstallError => At(Install(s, id, l, OnError), id, l.(pc := BumpError, retried := s.inner + 1))
    case BumpError => At(s, id, l.(pc := AwaitFresh, calls := l.calls + 1)).(generation := s.generation + 1)
    case AwaitFresh =>
      if reply.Answer? then At(s, id, l.(pc := MarkLocked)) else Release(s, id, l.(pc := Finished))
    case MarkLocked => Release(s, id, l.(pc := Finished)).(lastActivity := Some(s.now))
    case _ => s
  }

  function MoveOne(s: State, id: nat, reply: Reply, policy: Policy): State
    requires id in s.lookups
  {
    var l := s.lookups[id];
    if InIdlePhase(l.pc) then MoveIdle(s, id, l, reply, policy)
    else if InErrorPhase(l.pc) then MoveError(s, id, l, reply)
    else MoveFirst(s, id, l, reply, policy)
  }

  function Step(s: State, a: Action, policy: Policy): State {
    match a
    case Tick(elapsed) => s.(now := s.now + elapsed)
    case Start(id) => if id in s.lookups then s else At(s, id, Lookup(CheckIdle, 0, 0, 0, 0))
    case Move(id, reply) => if id in s.lookups then MoveOne(s, id, reply, policy) else s
    case Cancel(id) =>
      if id !in s.lookups || !Awaits(s.lookups[id].pc) then s
      else At(s, id, s.lookups[id].(pc := Finished)).(lock := if s.lock == Some(id) then None else s.lock)
  }

  function Run(actions: seq<Action>, policy: Policy): State {
    if actions == [] then INITIAL
    else Step(Run(actions[..|actions| - 1], policy), actions[|actions| - 1], policy)
  }

  // ----- what holds of every lookup

  /** A rebuild is installed and the generation not yet advanced. */
  predicate Bumping(s: State) {
    s.lock.Some? && s.lock.value in s.lookups &&
    (s.lookups[s.lock.value].pc.BumpIdle? || s.lookups[s.lock.value].pc.BumpError?)
  }

  ghost predicate CallsOk(l: Lookup) {
    match l.pc
    case CheckIdle | AwaitIdleLock | RecheckIdle | AwaitIdleFactory | InstallIdle | BumpIdle | SampleGeneration
       | ReadInner =>
      l.calls == 0
    case AwaitFirst | MarkActive | AwaitErrorLock | CompareGeneration | RereadInner | AwaitErrorFactory | InstallError
       | BumpError =>
      l.calls == 1
    case AwaitRetry | AwaitFresh | MarkLocked => l.calls == 2
    case Finished => l.calls <= 2
  }

  /** Where the numbers a lookup remembers stand. */
  ghost predicate NumbersOk(s: State, l: Lookup) {
    match l.pc
    case ReadInner => l.sampled <= s.generation
    case AwaitFirst | MarkActive | AwaitErrorLock | CompareGeneration =>
      l.sampled <= s.generation && l.sampled <= l.used <= s.inner
    case RereadInner => l.sampled < s.generation && l.sampled <= l.used <= s.inner
    // The retry runs on a resolver newer than the sampled generation, and never on an older one
    // than the resolver that failed.
    case AwaitRetry => l.sampled < l.retried && l.used <= l.retried == s.inner
    // The resolver about to be replaced is exactly the one that failed.
    case AwaitErrorFactory | InstallError => l.sampled == s.generation == l.used == s.inner
    case BumpError => l.sampled == s.generation == l.used && l.retried == l.used + 1 == s.inner
    case AwaitFresh => l.sampled == l.used && l.retried == l.used + 1 == s.inner == s.generation
    case _ => true
  }

  /** An idle rebuild is under way only if the last one is more than `maxIdle` ago. */
  ghost predicate IdleOk(s: State, l: Lookup, policy: Policy) {
    && (l.pc.AwaitIdleFactory? || l.pc.InstallIdle? ==>
          forall k :: 0 <= k < |s.rebuilds| && s.rebuilds[k].cause == Idle ==>
            s.now > s.rebuilds[k].at + policy.maxIdle)
    && (l.pc.BumpError? ==> s.rebuilds != [] && s.rebuilds[|s.rebuilds| - 1].cause == OnError)
  }

  ghost predicate LookupOk(s: State, id: nat, policy: Policy)
    requires id in s.lookups
  {
    var l := s.lookups[id];
    && (Locked(l.pc) <==> s.lock == Some(id))
    && CallsOk(l) && NumbersOk(s, l) && IdleOk(s, l, policy)
  }

  /** Error rebuilds answer the generation they are numbered by, and replace the resolver that failed. */
  ghost predicate RebuildOk(s: State, k: nat)
    requires k < |s.rebuilds|
  {
    s.rebuilds[k].cause == OnError ==> s.rebuilds[k].sampled == k && s.rebuilds[k].failed == k
  }

  /** Idle rebuilds happened, and were followed by silence, before the last activity. */
  ghost predicate IdleTimesOk(s: State, policy: Policy) {
    && (forall k :: 0 <= k < |s.rebuilds| ==> s.rebuilds[k].at <= s.now)
    && (forall j, k :: 0 <= j < k < |s.rebuilds| && s.rebuilds[j].cause == Idle && s.rebuilds[k].cause == Idle ==>
          s.rebuilds[k].at > s.rebuilds[j].at + policy.maxIdle)
    && (s.lastActivity.Some? ==> s.lastActivity.value <= s.now)
    && (forall k :: 0 <= k < |s.rebuilds| && s.rebuilds[k].cause == Idle && !(Bumping(s) && k == |s.rebuilds| - 1) ==>
          s.lastActivity.Some? && s.rebuilds[k].at <= s.lastActivity.value)
  }

  ghost predicate StateOk(s: State, policy: Policy) {
    && (s.lock.Some? ==> s.lock.value in s.lookups)
    && (forall id :: id in s.lookups ==> LookupOk(s, id, policy))
    && s.inner == |s.rebuilds|
    && s.generation == s.inner - (if Bumping(s) then 1 else 0)
    && (forall k :: 0 <= k < |s.rebuilds| ==> RebuildOk(s, k))
    && IdleTimesOk(s, policy)
  }

  // ----- every step keeps it

  lemma OtherKeeps(s: State, t: State, id: nat, policy: Policy)
    requires id in s.lookups && LookupOk(s, id, policy)
    requires id in t.lookups && t.lookups[id] == s.lookups[id] && s.now <= t.now
    requires s.generation <= t.generation && s.inner <= t.inner
    requires t.lock == Some(id) <==> s.lock == Some(id)
    requires s.lock == Some(id) ==> t.generation == s.generation && t.inner == s.inner && t.rebuilds == s.rebuilds
    ensures LookupOk(t, id, policy)
  {
  }

  /** What a step of `id` may change, seen from the other lookups. */
  ghost predicate Polite(s: State, t: State, id: nat) {
    && s.now == t.now && id in s.lookups && t.lookups.Keys == s.lookups.Keys
    && (forall k :: k in s.lookups && k != id ==> t.lookups[k] == s.lookups[k])
    && s.generation <= t.generation && s.inner <= t.inner
    && (s.lock != Some(id) ==> t.generation == s.generation && t.inner == s.inner && t.rebuilds == s.rebuilds)
    && (t.lock != s.lock ==> (s.lock == Some(id) && t.lock.None?) || (s.lock.None? && t.lock == Some(id)))
  }

  lemma OthersKeep(s: State, t: State, id: nat, policy: Policy)
    requires StateOk(s, policy) && Polite(s, t, id)
    ensures forall k :: k in t.lookups && k != id ==> LookupOk(t, k, policy)
  {
    hide NumbersOk, CallsOk, IdleOk, RebuildOk, IdleTimesOk;
    forall k | k in t.lookups && k != id ensures LookupOk(t, k, policy) {
      assert LookupOk(s, k, policy) && LookupOk(s, id, policy);
      OtherKeeps(s, t, k, policy);
    }
  }

  /** The steps that install a resolver and that advance the generation. */
  predicate Rebuilds(pc: Pc) {
    match pc
    case InstallIdle | BumpIdle | InstallError | BumpError => true
    case _ => false
  }

  /** The numbers of the mover: who holds the lock, how many calls, which resolvers. */
  ghost predicate MoverOk(s: State, t: State, id: nat) {
    && Polite(s, t, id)
    && var l := t.lookups[id];
    && (Locked(l.pc) <==> t.lock == Some(id))
    && CallsOk(l) && NumbersOk(t, l)
    && t.inner == |t.rebuilds| && t.generation == t.inner - (if Bumping(t) then 1 else 0)
    && (Bumping(t) == Bumping(s) || Rebuilds(s.lookups[id].pc))
    && (t.rebuilds == s.rebuilds ||
        (s.rebuilds < t.rebuilds && |t.rebuilds| == |s.rebuilds| + 1 && !Bumping(s) && Bumping(t)))
  }

  /** What the proofs about the mover use of the state. */
  ghost predicate Core(s: State, id: nat) {
    && id in s.lookups
    && (Locked(s.lookups[id].pc) <==> s.lock == Some(id))
    && CallsOk(s.lookups[id]) && NumbersOk(s, s.lookups[id])
    && s.inner == |s.rebuilds| && s.generation == s.inner - (if Bumping(s) then 1 else 0)
  }

  lemma MoverIdle(s: State, id: nat, reply: Reply, policy: Policy)
    requires Core(s, id) && InIdlePhase(s.lookups[id].pc)
    ensures MoverOk(s, MoveIdle(s, id, s.lookups[id], reply, policy), id)
  {
  }

  /** A step that changes nothing but its own lookup and the time of the last activity. */
  lemma QuietMove(s: State, t: State, id: nat, l: Lookup)
    requires id in s.lookups && s.lock != Some(id)
    requires t == s.(lookups := s.lookups[id := l], lastActivity := t.lastActivity)
    ensures Polite(s, t, id) && Bumping(t) == Bumping(s)
  {
  }

  lemma MoverFirst(s: State, id: nat, reply: Reply, policy: Policy)
    requires Core(s, id) && !InIdlePhase(s.lookups[id].pc) && !InErrorPhase(s.lookups[id].pc)
    ensures MoverOk(s, MoveFirst(s, id, s.lookups[id], reply, policy), id)
  {
    var t := MoveFirst(s, id, s.lookups[id], reply, policy);
    assert !Locked(s.lookups[id].pc);
    QuietMove(s, t, id, t.lookups[id]);
    hide Polite, Bumping;
  }

  lemma MoverRetry(s: State, id: nat, reply: Reply, policy: Policy)
    requires Core(s, id)
    requires var pc := s.lookups[id].pc;
             pc.AwaitErrorLock? || pc.CompareGeneration? || pc.RereadInner? || pc.AwaitRetry? || pc.MarkLocked?
    ensures MoverOk(s, MoveError(s, id, s.lookups[id], reply), id)
  {
  }

  lemma MoverRebuild(s: State, id: nat, reply: Reply, policy: Policy)
    requires Core(s, id) && (s.lookups[id].pc.InstallError? || s.lookups[id].pc.BumpError?)
    ensures MoverOk(s, MoveError(s, id, s.lookups[id], reply), id)
  {
  }

  lemma MoverAnswered(s: State, id: nat, reply: Reply, policy: Policy)
    requires Core(s, id) && (s.lookups[id].pc.AwaitErrorFactory? || s.lookups[id].pc.AwaitFresh?)
    ensures MoverOk(s, MoveError(s, id, s.lookups[id], reply), id)
  {
  }

  lemma MoverKeeps(s: State, id: nat, reply: Reply, policy: Policy)
    requires StateOk(s, policy) && id in s.lookups
    ensures MoverOk(s, MoveOne(s, id, reply, policy), id)
  {
    assert LookupOk(s, id, policy);
    assert Core(s, id);
    hide StateOk, MoverOk, MoveIdle, MoveError, MoveFirst, Core;
    if InIdlePhase(s.lookups[id].pc) {
      MoverIdle(s, id, reply, policy);
    } else if InErrorPhase(s.lookups[id].pc) {
      var pc := s.lookups[id].pc;
      if pc.InstallError? || pc.BumpError? {
        MoverRebuild(s, id, reply, policy);
      } else if pc.AwaitErrorFactory? || pc.AwaitFresh? {
        MoverAnswered(s, id, reply, policy);
      } else {
        MoverRetry(s, id, reply, policy);
      }
    } else {
      MoverFirst(s, id, reply, policy);
    }
  }

  lemma HistoryKeeps(s: State, id: nat, reply: Reply, policy: Policy)
    requires StateOk(s, policy) && id in s.lookups
    ensures var t := MoveOne(s, id, reply, policy);
            forall k :: 0 <= k < |t.rebuilds| ==> RebuildOk(t, k)
  {
    hide CallsOk, IdleOk, IdleTimesOk;
    var t := MoveOne(s, id, reply, policy);
    assert LookupOk(s, id, policy);
    forall k | 0 <= k < |t.rebuilds| ensures RebuildOk(t, k) {
      if k < |s.rebuilds| {
        assert RebuildOk(s, k) && t.rebuilds[k] == s.rebuilds[k];
      }
    }
  }

  /** Nothing about idleness changes, or there is new activity. */
  lemma IdleTimesSame(s: State, t: State, policy: Policy)
    requires IdleTimesOk(s, policy) && t.rebuilds == s.rebuilds && t.now == s.now
    requires t.lastActivity == s.lastActivity || t.lastActivity == Some(s.now)
    requires || Bumping(t) == Bumping(s)
             || t.lastActivity == Some(s.now)
             || (s.rebuilds != [] && s.rebuilds[|s.rebuilds| - 1].cause == OnError)
    ensures IdleTimesOk(t, policy)
  {
  }

  /** A new rebuild, while none was being finished. */
  lemma IdleTimesInstall(s: State, t: State, r: Rebuild, policy: Policy)
    requires IdleTimesOk(s, policy) && !Bumping(s) && Bumping(t)
    requires t.now == s.now == r.at && t.lastActivity == s.lastActivity && t.rebuilds == s.rebuilds + [r]
    requires r.cause == Idle ==>
      forall k :: 0 <= k < |s.rebuilds| && s.rebuilds[k].cause == Idle ==> s.now > s.rebuilds[k].at + policy.maxIdle
    ensures IdleTimesOk(t, policy)
  {
    assert forall k :: 0 <= k < |s.rebuilds| ==> t.rebuilds[k] == s.rebuilds[k];
  }

  /** How a step of `id` bears on idleness. */
  ghost predicate IdleEffect(s: State, t: State, l: Lookup) {
    if l.pc.InstallIdle? || l.pc.InstallError? then
      && t.now == s.now && t.lastActivity == s.lastActivity && |t.rebuilds| == |s.rebuilds| + 1
      && t.rebuilds == s.rebuilds + [t.rebuilds[|s.rebuilds|]] && t.rebuilds[|s.rebuilds|].at == s.now
      && t.rebuilds[|s.rebuilds|].cause == (if l.pc.InstallIdle? then Idle else OnError)
    else
      && t.now == s.now && t.rebuilds == s.rebuilds
      && (t.lastActivity == s.lastActivity || t.lastActivity == Some(s.now))
      && (l.pc.BumpIdle? ==> t.lastActivity == Some(s.now))
  }

  lemma IdleEffects(s: State, id: nat, reply: Reply, policy: Policy)
    requires id in s.lookups
    ensures var t := MoveOne(s, id, reply, policy);
            IdleEffect(s, t, s.lookups[id])
  {
  }

  lemma IdleKeeps(s: State, id: nat, reply: Reply, policy: Policy)
    requires StateOk(s, policy) && id in s.lookups
    ensures IdleTimesOk(MoveOne(s, id, reply, policy), policy)
  {
    hide NumbersOk, CallsOk, RebuildOk, IdleTimesOk, MoveOne, Polite;
    assert LookupOk(s, id, policy);
    var l := s.lookups[id];
    var t := MoveOne(s, id, reply, policy);
    IdleEffects(s, id, reply, policy);
    MoverKeeps(s, id, reply, policy);
    if l.pc.InstallIdle? || l.pc.InstallError? {
      IdleTimesInstall(s, t, t.rebuilds[|s.rebuilds|], policy);
    } else {
      IdleTimesSame(s, t, policy);
    }
  }

  /** Deciding under the lock that the resolver is idle: every earlier idle rebuild is long ago. */
  lemma IdleDecided(s: State, policy: Policy)
    requires IdleTimesOk(s, policy) && !Bumping(s) && IsIdle(s, policy)
    ensures forall k :: 0 <= k < |s.rebuilds| && s.rebuilds[k].cause == Idle ==>
      s.now > s.rebuilds[k].at + policy.maxIdle
  {
  }

  lemma IdlePhaseIdleOk(s: State, id: nat, reply: Reply, policy: Policy)
    requires Core(s, id) && IdleOk(s, s.lookups[id], policy) && IdleTimesOk(s, policy) && InIdlePhase(s.lookups[id].pc)
    ensures var t := MoveIdle(s, id, s.lookups[id], reply, policy); id in t.lookups && IdleOk(t, t.lookups[id], policy)
  {
    hide NumbersOk, CallsOk, IdleTimesOk;
    if s.lookups[id].pc.RecheckIdle? && IsIdle(s, policy) {
      IdleDecided(s, policy);
    }
  }

  lemma ErrorPhaseIdleOk(s: State, id: nat, reply: Reply, policy: Policy)
    requires Core(s, id) && IdleOk(s, s.lookups[id], policy) && InErrorPhase(s.lookups[id].pc)
    ensures var t := MoveError(s, id, s.lookups[id], reply); id in t.lookups && IdleOk(t, t.lookups[id], policy)
  {
    hide NumbersOk, CallsOk;
  }

  lemma MoverIdleOk(s: State, id: nat, reply: Reply, policy: Policy)
    requires Core(s, id) && IdleOk(s, s.lookups[id], policy) && IdleTimesOk(s, policy)
    ensures var t := MoveOne(s, id, reply, policy); id in t.lookups && IdleOk(t, t.lookups[id], policy)
  {
    hide NumbersOk, CallsOk, IdleTimesOk, MoveIdle, MoveError;
    if InIdlePhase(s.lookups[id].pc) {
      IdlePhaseIdleOk(s, id, reply, policy);
    } else if InErrorPhase(s.lookups[id].pc) {
      ErrorPhaseIdleOk(s, id, reply, policy);
    }
  }

  lemma MoveKeeps(s: State, id: nat, reply: Reply, policy: Policy)
    requires StateOk(s, policy) && id in s.lookups
    ensures StateOk(MoveOne(s, id, reply, policy), policy)
  {
    assert LookupOk(s, id, policy);
    MoverKeeps(s, id, reply, policy);
    MoverIdleOk(s, id, reply, policy);
    HistoryKeeps(s, id, reply, policy);
    IdleKeeps(s, id, reply, policy);
    hide MoveOne, IdleTimesOk, NumbersOk, CallsOk, RebuildOk, IdleOk;
    var t := MoveOne(s, id, reply, policy);
    OthersKeep(s, t, id, policy);
    assert LookupOk(t, id, policy);
  }

  lemma TickKeeps(s: State, elapsed: nat, policy: Policy)
    requires StateOk(s, policy)
    ensures StateOk(s.(now := s.now + elapsed), policy)
  {
    var t := s.(now := s.now + elapsed);
    forall id | id in t.lookups ensures LookupOk(t, id, policy) {
      assert LookupOk(s, id, policy);
      OtherKeeps(s, t, id, policy);
    }
    forall k | 0 <= k < |t.rebuilds| ensures RebuildOk(t, k) {
      assert RebuildOk(s, k);
    }
  }

  lemma StartKeeps(s: State, id: nat, policy: Policy)
    requires StateOk(s, policy) && id !in s.lookups
    ensures StateOk(At(s, id, Lookup(CheckIdle, 0, 0, 0, 0)), policy)
  {
    var t := At(s, id, Lookup(CheckIdle, 0, 0, 0, 0));
    forall k | k in t.lookups ensures LookupOk(t, k, policy) {
      if k != id {
        assert LookupOk(s, k, policy);
        OtherKeeps(s, t, k, policy);
      }
    }
    forall k | 0 <= k < |t.rebuilds| ensures RebuildOk(t, k) {
      assert RebuildOk(s, k);
    }
    assert Bumping(t) == Bumping(s);
  }

  lemma CancelKeeps(s: State, id: nat, policy: Policy)
    requires StateOk(s, policy) && id in s.lookups && Awaits(s.lookups[id].pc)
    ensures StateOk(Step(s, Cancel(id), policy), policy)
  {
    var t := Step(s, Cancel(id), policy);
    assert LookupOk(s, id, policy);
    forall k | k in t.lookups ensures LookupOk(t, k, policy) {
      assert LookupOk(s, k, policy);
      if k != id {
        OtherKeeps(s, t, k, policy);
      }
    }
    forall k | 0 <= k < |t.rebuilds| ensures RebuildOk(t, k) {
      assert RebuildOk(s, k);
    }
    assert Bumping(t) == Bumping(s);
  }

  lemma StepKeeps(s: State, a: Action, policy: Policy)
    requires StateOk(s, policy)
    ensures StateOk(Step(s, a, policy), policy)
  {
    hide StateOk, MoveOne;
    match a
    case Tick(elapsed) => TickKeeps(s, elapsed, policy);
    case Start(id) => if id !in s.lookups { StartKeeps(s, id, policy); }
    case Move(id, reply) => if id in s.lookups { MoveKeeps(s, id, reply, policy); }
    case Cancel(id) => if id in s.lookups && Awaits(s.lookups[id].pc) { CancelKeeps(s, id, policy); }
  }

  lemma {:induction false} RunOk(actions: seq<Action>, policy: Policy)
    ensures StateOk(Run(actions, policy), policy)
  {
    hide Step;
    if actions != [] {
      var n := |actions| - 1;
      RunOk(actions[..n], policy);
      StepKeeps(Run(actions[..n], policy), actions[n], policy);
    }
  }

  // ----- the guarantees

  /** In every interleaving: the lock is held exactly by the lookup that is in a locked section, so
      it is never leaked, not even by a cancelled lookup; the generation counts the rebuilds,
      except in the instant between installing one and counting it; and no lookup makes more
      than two calls. */
  lemma LockAndCount(actions: seq<Action>, policy: Policy)
    ensures var s := Run(actions, policy);
            && (s.lock.Some? ==> s.lock.value in s.lookups)
            && (forall id :: id in s.lookups ==>
                  (Locked(s.lookups[id].pc) <==> s.lock == Some(id)) && s.lookups[id].calls <= 2)
            && (forall id, k | id in s.lookups && k in s.lookups ::
                  Locked(s.lookups[id].pc) && Locked(s.lookups[k].pc) ==> id == k)
            && s.generation == |s.rebuilds| - (if Bumping(s) then 1 else 0)
  {
    hide Run;
    RunOk(actions, policy);
    var s := Run(actions, policy);
    forall id | id in s.lookups
      ensures (Locked(s.lookups[id].pc) <==> s.lock == Some(id)) && s.lookups[id].calls <= 2
    {
      assert LookupOk(s, id, policy);
    }
  }

  /** In every interleaving: two error-triggered rebuilds never answer the same sampled generation,
      each replaces exactly the resolver that failed, and idle rebuilds are more than `maxIdle`
      apart however many lookups wait for the lock. */
  lemma NoRedundantRebuild(actions: seq<Action>, policy: Policy)
    ensures var rebuilds := Run(actions, policy).rebuilds;
            && (forall j, k | 0 <= j < k < |rebuilds| ::
                  rebuilds[j].cause == OnError && rebuilds[k].cause == OnError ==>
                    rebuilds[j].sampled != rebuilds[k].sampled)
            && (forall k :: 0 <= k < |rebuilds| && rebuilds[k].cause == OnError ==> rebuilds[k].failed == k)
            && (forall j, k :: 0 <= j < k < |rebuilds| && rebuilds[j].cause == Idle && rebuilds[k].cause == Idle ==>
                  rebuilds[k].at > rebuilds[j].at + policy.maxIdle)
  {
    hide Run;
    RunOk(actions, policy);
    var s := Run(actions, policy);
    forall k | 0 <= k < |s.rebuilds| && s.rebuilds[k].cause == OnError
      ensures s.rebuilds[k].sampled == k && s.rebuilds[k].failed == k
    {
      assert RebuildOk(s, k);
    }
  }

  /** A rebuild is only ever installed by the holder of the refresh lock. */
  lemma RebuildNeedsLock(actions: seq<Action>, a: Action, policy: Policy)
    ensures var s := Run(actions, policy);
            var t := Step(s, a, policy);
            t.inner != s.inner || t.generation != s.generation || t.rebuilds != s.rebuilds ==>
              a.Move? && s.lock == Some(a.id)
  {
    hide Run, MoveOne;
    RunOk(actions, policy);
    var s := Run(actions, policy);
    if a.Move? && a.id in s.lookups {
      MoverKeeps(s, a.id, a.reply, policy);
    }
  }

  /** The second call of a lookup goes to the current resolver, which is newer than the sampled
      generation and never older than the one that failed; after a rebuild of its own it is newer. */
  lemma RetryIsCurrent(actions: seq<Action>, policy: Policy, id: nat)
    requires id in Run(actions, policy).lookups
    ensures var s := Run(actions, policy);
            var l := s.lookups[id];
            && (l.pc.AwaitRetry? ==> l.retried == |s.rebuilds| && l.sampled < l.retried && l.used <= l.retried)
            && (l.pc.AwaitFresh? ==> l.retried == |s.rebuilds| == l.used + 1)
  {
    hide Run;
    RunOk(actions, policy);
    assert LookupOk(Run(actions, policy), id, policy);
  }

  /** Under the lock after a connection error, the lookup retries on the very resolver that failed
      exactly if that resolver was installed after the sample and is still the current one. */
  lemma RetriesOnFailed(actions: seq<Action>, policy: Policy, id: nat, reply: Reply)
    requires id in Run(actions, policy).lookups && Run(actions, policy).lookups[id].pc.CompareGeneration?
    ensures var s := Run(actions, policy);
            var l := s.lookups[id];
            var t := Run(actions + [Move(id, reply), Move(id, reply)], policy);
            && id in t.lookups
            && (t.lookups[id].pc.AwaitRetry? && t.lookups[id].retried == t.lookups[id].used
                <==> l.sampled < l.used == |s.rebuilds|)
  {
    var s := Run(actions, policy);
    RunOk(actions, policy);
    assert LookupOk(s, id, policy);
    RunSnoc(actions, Move(id, reply), policy);
    RunSnoc(actions + [Move(id, reply)], Move(id, reply), policy);
    assert actions + [Move(id, reply), Move(id, reply)] == (actions + [Move(id, reply)]) + [Move(id, reply)];
  }

  lemma RunSnoc(actions: seq<Action>, a: Action, policy: Policy)
    ensures Run(actions + [a], policy) == Step(Run(actions, policy), a, policy)
  {
    assert (actions + [a])[..|actions|] == actions;
  }

  /** One more action of a run. */
  lemma Extend(actions: seq<Action>, a: Action, policy: Policy, s: State) returns (more: seq<Action>, t: State)
    requires Run(actions, policy) == s
    ensures more == actions + [a] && t == Step(s, a, policy) && Run(more, policy) == t
  {
    RunSnoc(actions, a, policy);
    more, t := actions + [a], Step(s, a, policy);
  }

  /** Lookup 1 has sampled generation 0 and not yet read the resolver. */
  lemma FirstSampled(policy: Policy) returns (actions: seq<Action>)
    ensures Run(actions, policy) == INITIAL.(lookups := map[1 := Lookup(ReadInner, 0, 0, 0, 0)])
  {
    hide Run;
    RunNothing(policy);
    var s := INITIAL;
    actions := [];
    actions, s := Extend(actions, Start(1), policy, s);
    actions, s := Extend(actions, Move(1, Answer), policy, s);
    actions, s := Extend(actions, Move(1, Answer), policy, s);
    assert s.lookups == map[1 := Lookup(ReadInner, 0, 0, 0, 0)];
  }

  lemma RunNothing(policy: Policy)
    ensures Run([], policy) == INITIAL
  {
  }

  /** Lookup 2 has called resolver 0. */
  lemma SecondCalls(policy: Policy) returns (actions: seq<Action>)
    ensures Run(actions, policy) == INITIAL.(lookups := map[
              1 := Lookup(ReadInner, 0, 0, 0, 0), 2 := Lookup(AwaitFirst, 0, 0, 0, 1)])
  {
    hide Run;
    actions := FirstSampled(policy);
    var s := INITIAL.(lookups := map[1 := Lookup(ReadInner, 0, 0, 0, 0)]);
    actions, s := Extend(actions, Start(2), policy, s);
    actions, s := Extend(actions, Move(2, Answer), policy, s);
    actions, s := Extend(actions, Move(2, Answer), policy, s);
    actions, s := Extend(actions, Move(2, Answer), policy, s);
    assert s.lookups == map[1 := Lookup(ReadInner, 0, 0, 0, 0), 2 := Lookup(AwaitFirst, 0, 0, 0, 1)];
  }

  /** Meanwhile lookup 2 fails on resolver 0 and comes to rebuilding it. */
  lemma SecondFails(policy: Policy) returns (actions: seq<Action>)
    requires policy.retryOnce
    ensures Run(actions, policy) == INITIAL.(lock := Some(2), lookups := map[
              1 := Lookup(ReadInner, 0, 0, 0, 0), 2 := Lookup(AwaitErrorFactory, 0, 0, 0, 1)])
  {
    hide Run;
    actions := SecondCalls(policy);
    var s := INITIAL.(lookups := map[1 := Lookup(ReadInner, 0, 0, 0, 0), 2 := Lookup(AwaitFirst, 0, 0, 0, 1)]);
    actions, s := Extend(actions, Move(2, ConnectionError), policy, s);
    actions, s := Extend(actions, Move(2, Answer), policy, s);
    actions, s := Extend(actions, Move(2, Answer), policy, s);
    assert s.lookups == map[1 := Lookup(ReadInner, 0, 0, 0, 0), 2 := Lookup(AwaitErrorFactory, 0, 0, 0, 1)];
  }

  /** It installs resolver 1. */
  lemma SecondInstalls(policy: Policy) returns (actions: seq<Action>)
    requires policy.retryOnce
    ensures Run(actions, policy) == INITIAL.(lock := Some(2), inner := 1,
              rebuilds := [Rebuild(2, OnError, 0, 0, 0)], lookups := map[
              1 := Lookup(ReadInner, 0, 0, 0, 0), 2 := Lookup(BumpError, 0, 0, 1, 1)])
  {
    hide Run;
    actions := SecondFails(policy);
    var s := INITIAL.(lock := Some(2), lookups := map[
      1 := Lookup(ReadInner, 0, 0, 0, 0), 2 := Lookup(AwaitErrorFactory, 0, 0, 0, 1)]);
    actions, s := Extend(actions, Move(2, Answer), policy, s);
    actions, s := Extend(actions, Move(2, Answer), policy, s);
    assert s.lookups == map[1 := Lookup(ReadInner, 0, 0, 0, 0), 2 := Lookup(BumpError, 0, 0, 1, 1)];
  }

  /** And is answered by it. */
  lemma SecondRebuilds(policy: Policy) returns (actions: seq<Action>)
    requires policy.retryOnce
    ensures Run(actions, policy) == INITIAL.(inner := 1, generation := 1, lastActivity := Some(0),
              rebuilds := [Rebuild(2, OnError, 0, 0, 0)], lookups := map[
              1 := Lookup(ReadInner, 0, 0, 0, 0), 2 := Lookup(Finished, 0, 0, 1, 2)])
  {
    hide Run;
    actions := SecondInstalls(policy);
    var s := Run(actions, policy);
    actions, s := Extend(actions, Move(2, Answer), policy, s);
    actions, s := Extend(actions, Move(2, Answer), policy, s);
    actions, s := Extend(actions, Move(2, Answer), policy, s);
    assert s.lookups == map[1 := Lookup(ReadInner, 0, 0, 0, 0), 2 := Lookup(Finished, 0, 0, 1, 2)];
  }

  /** A run in which a lookup whose resolver failed is given the same resolver again, without a
      rebuild: it sampled the generation before another lookup's rebuild and read the resolver
      after it. */
  lemma RetryOnSameResolver(policy: Policy) returns (actions: seq<Action>)
    requires policy.retryOnce
    ensures var s := Run(actions, policy);
            && 1 in s.lookups && s.lookups[1].pc.AwaitRetry?
            && s.lookups[1].used == s.lookups[1].retried == 1 && |s.rebuilds| == 1
  {
    hide Run;
    actions := SecondRebuilds(policy);
    var s := Run(actions, policy);
    actions, s := Extend(actions, Move(1, Answer), policy, s);
    actions, s := Extend(actions, Move(1, ConnectionError), policy, s);
    actions, s := Extend(actions, Move(1, Answer), policy, s);
    actions, s := Extend(actions, Move(1, Answer), policy, s);
    actions, s := Extend(actions, Move(1, Answer), policy, s);
  }

  // ----- what a lookup gets done

  /** A number of answered moves of one lookup. */
  function Moves(s: State, id: nat, replies: seq<Reply>, policy: Policy): State
    decreases |replies|
  {
    if replies == [] || id !in s.lookups then s
    else Moves(MoveOne(s, id, replies[0], policy), id, replies[1..], policy)
  }

  /** They are moves of a run. */
  lemma {:induction false} RunMoves(actions: seq<Action>, id: nat, replies: seq<Reply>, policy: Policy)
    ensures Moves(Run(actions, policy), id, replies, policy)
         == Run(actions + seq(|replies|, i requires 0 <= i < |replies| => Move(id, replies[i])), policy)
    decreases |replies|
  {
    hide MoveOne;
    var moves := seq(|replies|, i requires 0 <= i < |replies| => Move(id, replies[i]));
    if replies == [] {
      assert actions + moves == actions;
    } else {
      var next := actions + [Move(id, replies[0])];
      RunSnoc(actions, Move(id, replies[0]), policy);
      RunMoves(next, id, replies[1..], policy);
      var later := seq(|replies| - 1, i requires 0 <= i < |replies| - 1 => Move(id, replies[1..][i]));
      assert actions + moves == next + later;
      if id !in Run(actions, policy).lookups {
        NobodyMoves(Run(actions, policy), id, replies[1..], policy);
      }
    }
  }

  lemma NobodyMoves(s: State, id: nat, replies: seq<Reply>, policy: Policy)
    requires id !in s.lookups
    ensures Moves(s, id, replies, policy) == s
  {
  }

  lemma MovesTwo(s: State, id: nat, a: Reply, b: Reply, rest: seq<Reply>, policy: Policy)
    requires id in s.lookups && id in MoveOne(s, id, a, policy).lookups
    ensures Moves(s, id, [a, b] + rest, policy) ==
      Moves(MoveOne(MoveOne(s, id, a, policy), id, b, policy), id, rest, policy)
  {
    hide MoveOne;
    var all := [a, b] + rest;
    assert all[1..] == [b] + rest && all[1..][1..] == rest;
  }

  /** Finding the resolver idle, with the lock free: the lookup comes to asking for a new one. */
  lemma IdleAsks(s: State, id: nat, policy: Policy, rest: seq<Reply>)
    requires id in s.lookups && s.lookups[id].pc.CheckIdle? && s.lock.None? && IsIdle(s, policy)
    ensures var t := At(s, id, s.lookups[id].(pc := RecheckIdle)).(lock := Some(id));
            Moves(s, id, [Answer, Answer] + rest, policy) == Moves(t, id, rest, policy)
  {
    MovesTwo(s, id, Answer, Answer, rest, policy);
    var t := At(s, id, s.lookups[id].(pc := RecheckIdle)).(lock := Some(id));
    assert MoveOne(MoveOne(s, id, Answer, policy), id, Answer, policy).lookups == t.lookups;
  }

  /** Then, if it is still idle and one can be made, it is about to be installed. */
  lemma IdleMakes(s: State, id: nat, policy: Policy, rest: seq<Reply>)
    requires id in s.lookups && s.lookups[id].pc.RecheckIdle? && s.lock == Some(id) && IsIdle(s, policy)
    ensures var t := At(s, id, s.lookups[id].(pc := InstallIdle));
            Moves(s, id, [Answer, Answer] + rest, policy) == Moves(t, id, rest, policy)
  {
    MovesTwo(s, id, Answer, Answer, rest, policy);
    var t := At(s, id, s.lookups[id].(pc := InstallIdle));
    assert MoveOne(MoveOne(s, id, Answer, policy), id, Answer, policy).lookups == t.lookups;
  }

  /** Then it is installed and counted, and its use is recorded. */
  lemma IdleInstalls(s: State, id: nat, policy: Policy, rest: seq<Reply>)
    requires id in s.lookups && s.lookups[id].pc.InstallIdle? && s.lock == Some(id)
    ensures var l := s.lookups[id];
            var t := Install(s, id, l, Idle).(lookups := s.lookups[id := l.(pc := SampleGeneration)], lock := None,
              generation := s.generation + 1, lastActivity := Some(s.now));
            Moves(s, id, [Answer, Answer] + rest, policy) == Moves(t, id, rest, policy)
  {
    MovesTwo(s, id, Answer, Answer, rest, policy);
    var l := s.lookups[id];
    assert MoveOne(MoveOne(s, id, Answer, policy), id, Answer, policy).lookups
        == s.lookups[id := l.(pc := SampleGeneration)];
  }

  /** Then the first call goes to the current resolver. */
  lemma CallsCurrent(s: State, id: nat, policy: Policy)
    requires id in s.lookups && s.lookups[id].pc.SampleGeneration?
    ensures var l := s.lookups[id];
            Moves(s, id, [Answer, Answer], policy) ==
              At(s, id, l.(pc := AwaitFirst, sampled := s.generation, used := s.inner, calls := l.calls + 1))
  {
    MovesTwo(s, id, Answer, Answer, [], policy);
    assert [Answer, Answer] + [] == [Answer, Answer];
    var l := s.lookups[id];
    var t := At(s, id, l.(pc := AwaitFirst, sampled := s.generation, used := s.inner, calls := l.calls + 1));
    assert MoveOne(MoveOne(s, id, Answer, policy), id, Answer, policy).lookups == t.lookups;
  }

  /** The idle refresh: a lookup that starts when the last activity is more than `maxIdle` ago, and
      finds the lock free, replaces the resolver and makes its first call on the new one, if one can
      be made; the rebuild itself counts as activity. */
  lemma IdleRefreshes(s: State, id: nat, policy: Policy)
    requires id in s.lookups && s.lookups[id].pc.CheckIdle? && s.lock.None?
    requires s.lastActivity.Some? && s.now > s.lastActivity.value + policy.maxIdle
    ensures var t := Moves(s, id, [Answer, Answer, Answer, Answer, Answer, Answer, Answer, Answer], policy);
            && id in t.lookups && t.lookups[id].pc.AwaitFirst? && t.lookups[id].used == s.inner + 1
            && t.inner == s.inner + 1 && t.generation == s.generation + 1 && t.lock.None?
            && t.lastActivity == Some(s.now) && |t.rebuilds| == |s.rebuilds| + 1
            && t.rebuilds[|s.rebuilds|].cause == Idle && t.rebuilds[|s.rebuilds|].author == id
  {
    hide Moves, MoveOne;
    var l := s.lookups[id];
    var two := [Answer, Answer];
    IdleAsks(s, id, policy, two + (two + two));
    var s1 := At(s, id, l.(pc := RecheckIdle)).(lock := Some(id));
    IdleMakes(s1, id, policy, two + two);
    var s2 := At(s1, id, s1.lookups[id].(pc := InstallIdle));
    IdleInstalls(s2, id, policy, two);
    var l2 := s2.lookups[id];
    var s3 := Install(s2, id, l2, Idle).(lookups := s2.lookups[id := l2.(pc := SampleGeneration)], lock := None,
      generation := s2.generation + 1, lastActivity := Some(s2.now));
    CallsCurrent(s3, id, policy);
    assert two + (two + (two + two)) == [Answer, Answer, Answer, Answer, Answer, Answer, Answer, Answer];
  }

  /** If none can be made, or another lookup was faster, it goes on with the resolver there is. */
  lemma IdleGivesUp(s: State, id: nat, reply: Reply, policy: Policy)
    requires id in s.lookups && s.lock == Some(id)
    requires || (s.lookups[id].pc.RecheckIdle? && !IsIdle(s, policy))
             || (s.lookups[id].pc.AwaitIdleFactory? && !reply.Answer?)
    ensures var t := MoveOne(s, id, reply, policy);
            && id in t.lookups && t.lookups[id].pc.SampleGeneration? && t.lock.None?
            && t.inner == s.inner && t.generation == s.generation && t.rebuilds == s.rebuilds
  {
  }

  /** Waiting for an answer to a call. */
  predicate Calling(pc: Pc) {
    pc.AwaitFirst? || pc.AwaitRetry? || pc.AwaitFresh?
  }

  /** A call that is answered ends the lookup, releases the lock and is recorded as activity. */
  lemma AnswerIsActivity(s: State, id: nat, reply: Reply, policy: Policy)
    requires id in s.lookups && Calling(s.lookups[id].pc)
    requires s.lookups[id].pc.AwaitFirst? <==> s.lock != Some(id)
    ensures var t := Moves(s, id, [Answer, reply], policy);
            && id in t.lookups && t.lookups[id].pc.Finished? && t.lock != Some(id)
            && t.lastActivity == Some(s.now) && t.inner == s.inner && t.rebuilds == s.rebuilds
  {
    MovesTwo(s, id, Answer, reply, [], policy);
    assert [Answer, reply] + [] == [Answer, reply];
  }

  /** A call that fails is not activity.  It ends the lookup, unless it is the first, fails with a
      connection error, and retrying is on. */
  lemma FailureIsNotActivity(s: State, id: nat, reply: Reply, policy: Policy)
    requires id in s.lookups && Calling(s.lookups[id].pc) && !reply.Answer?
    ensures var t := MoveOne(s, id, reply, policy);
            && id in t.lookups && t.lastActivity == s.lastActivity && t.inner == s.inner && t.rebuilds == s.rebuilds
            && (t.lookups[id].pc.AwaitErrorLock? <==>
                  s.lookups[id].pc.AwaitFirst? && reply.ConnectionError? && policy.retryOnce)
            && (!t.lookups[id].pc.AwaitErrorLock? ==> t.lookups[id].pc.Finished?)
  {
  }

  /** The error refresh: with the lock free and nobody else's rebuild since the sample, the failed
      resolver is replaced and the second call goes to the new one. */
  lemma ErrorRefreshes(s: State, id: nat, policy: Policy)
    requires id in s.lookups && s.lookups[id].pc.AwaitFirst? && s.lock.None?
    requires policy.retryOnce && s.generation == s.lookups[id].sampled
    ensures var t := Moves(s, id, [ConnectionError, Answer, Answer, Answer, Answer, Answer], policy);
            && id in t.lookups && t.lookups[id].pc.AwaitFresh? && t.lookups[id].retried == s.inner + 1
            && t.inner == s.inner + 1 && t.generation == s.generation + 1 && t.lock == Some(id)
            && |t.rebuilds| == |s.rebuilds| + 1 && t.rebuilds[|s.rebuilds|].cause == OnError
  {
    hide Moves, MoveOne;
    var l := s.lookups[id];
    ErrorLocks(s, id, policy, [Answer, Answer] + [Answer, Answer]);
    var s1 := At(s, id, l.(pc := CompareGeneration)).(lock := Some(id));
    ErrorMakes(s1, id, policy, [Answer, Answer]);
    var s2 := At(s1, id, s1.lookups[id].(pc := InstallError));
    ErrorInstalls(s2, id, policy);
    assert [ConnectionError, Answer] + ([Answer, Answer] + [Answer, Answer])
        == [ConnectionError, Answer, Answer, Answer, Answer, Answer];
  }

  lemma ErrorLocks(s: State, id: nat, policy: Policy, rest: seq<Reply>)
    requires id in s.lookups && s.lookups[id].pc.AwaitFirst? && s.lock.None? && policy.retryOnce
    ensures var t := At(s, id, s.lookups[id].(pc := CompareGeneration)).(lock := Some(id));
            Moves(s, id, [ConnectionError, Answer] + rest, policy) == Moves(t, id, rest, policy)
  {
    MovesTwo(s, id, ConnectionError, Answer, rest, policy);
    var t := At(s, id, s.lookups[id].(pc := CompareGeneration)).(lock := Some(id));
    assert MoveOne(MoveOne(s, id, ConnectionError, policy), id, Answer, policy).lookups == t.lookups;
  }

  lemma ErrorMakes(s: State, id: nat, policy: Policy, rest: seq<Reply>)
    requires id in s.lookups && s.lookups[id].pc.CompareGeneration? && s.generation == s.lookups[id].sampled
    ensures var t := At(s, id, s.lookups[id].(pc := InstallError));
            Moves(s, id, [Answer, Answer] + rest, policy) == Moves(t, id, rest, policy)
  {
    MovesTwo(s, id, Answer, Answer, rest, policy);
    var t := At(s, id, s.lookups[id].(pc := InstallError));
    assert MoveOne(MoveOne(s, id, Answer, policy), id, Answer, policy).lookups == t.lookups;
  }

  lemma ErrorInstalls(s: State, id: nat, policy: Policy)
    requires id in s.lookups && s.lookups[id].pc.InstallError?
    ensures var t := Moves(s, id, [Answer, Answer], policy);
            && id in t.lookups && t.lookups[id].pc.AwaitFresh? && t.lookups[id].retried == s.inner + 1
            && t.inner == s.inner + 1 && t.generation == s.generation + 1 && t.lock == s.lock
            && |t.rebuilds| == |s.rebuilds| + 1 && t.rebuilds[|s.rebuilds|].cause == OnError
  {
    MovesTwo(s, id, Answer, Answer, [], policy);
    assert [Answer, Answer] + [] == [Answer, Answer];
  }

  // ----- what a rebuild answers

  /** Lookups in the error phase, and error rebuilds, go back to a connection error of that lookup. */
  ghost predicate ErrorsExplained(s: State, actions: seq<Action>, policy: Policy) {
    && (forall id :: id in s.lookups && InErrorPhase(s.lookups[id].pc) ==>
          policy.retryOnce && Move(id, ConnectionError) in actions)
    && (forall k :: 0 <= k < |s.rebuilds| && s.rebuilds[k].cause == OnError ==>
          policy.retryOnce && Move(s.rebuilds[k].author, ConnectionError) in actions)
  }

  /** What one move of `id` does to that. */
  ghost predicate Explains(s: State, t: State, id: nat, reply: Reply, policy: Policy) {
    && id in s.lookups && t.lookups.Keys == s.lookups.Keys
    && (forall k :: k in s.lookups && k != id ==> t.lookups[k] == s.lookups[k])
    && (InErrorPhase(t.lookups[id].pc) ==>
          InErrorPhase(s.lookups[id].pc) || (policy.retryOnce && reply == ConnectionError))
    && (t.rebuilds == s.rebuilds ||
        (|t.rebuilds| == |s.rebuilds| + 1 && t.rebuilds[..|s.rebuilds|] == s.rebuilds
         && t.rebuilds[|s.rebuilds|].author == id
         && (t.rebuilds[|s.rebuilds|].cause == OnError ==> InErrorPhase(s.lookups[id].pc))))
  }

  lemma IdleExplained(s: State, id: nat, reply: Reply, policy: Policy)
    requires id in s.lookups && InIdlePhase(s.lookups[id].pc)
    ensures Explains(s, MoveIdle(s, id, s.lookups[id], reply, policy), id, reply, policy)
  {
  }

  lemma FirstExplained(s: State, id: nat, reply: Reply, policy: Policy)
    requires id in s.lookups && !InIdlePhase(s.lookups[id].pc) && !InErrorPhase(s.lookups[id].pc)
    ensures Explains(s, MoveFirst(s, id, s.lookups[id], reply, policy), id, reply, policy)
  {
  }

  lemma ErrorExplained(s: State, id: nat, reply: Reply, policy: Policy)
    requires id in s.lookups && InErrorPhase(s.lookups[id].pc)
    ensures Explains(s, MoveError(s, id, s.lookups[id], reply), id, reply, policy)
  {
  }

  lemma MoveExplained(s: State, id: nat, reply: Reply, policy: Policy)
    requires id in s.lookups
    ensures Explains(s, MoveOne(s, id, reply, policy), id, reply, policy)
  {
    hide Explains, MoveIdle, MoveFirst, MoveError;
    if InIdlePhase(s.lookups[id].pc) {
      IdleExplained(s, id, reply, policy);
    } else if InErrorPhase(s.lookups[id].pc) {
      ErrorExplained(s, id, reply, policy);
    } else {
      FirstExplained(s, id, reply, policy);
    }
  }

  lemma StepExplained(s: State, actions: seq<Action>, a: Action, policy: Policy)
    requires ErrorsExplained(s, actions, policy)
    ensures ErrorsExplained(Step(s, a, policy), actions + [a], policy)
  {
    hide MoveOne, InErrorPhase;
    var t := Step(s, a, policy);
    assert forall b :: b in actions ==> b in actions + [a];
    assert a in actions + [a];
    assert !InErrorPhase(CheckIdle) && !InErrorPhase(Finished) by { NotErrors(); }
    if a.Move? && a.id in s.lookups {
      MoveExplained(s, a.id, a.reply, policy);
      forall k | 0 <= k < |t.rebuilds| && t.rebuilds[k].cause == OnError
        ensures policy.retryOnce && Move(t.rebuilds[k].author, ConnectionError) in actions + [a]
      {
        if k < |s.rebuilds| {
          assert t.rebuilds[k] == t.rebuilds[..|s.rebuilds|][k];
        }
      }
    }
  }

  lemma NotErrors()
    ensures !InErrorPhase(CheckIdle) && !InErrorPhase(Finished)
  {
  }

  lemma {:induction false} RunExplained(actions: seq<Action>, policy: Policy)
    ensures ErrorsExplained(Run(actions, policy), actions, policy)
  {
    hide Step, ErrorsExplained;
    if actions == [] {
      assert ErrorsExplained(INITIAL, [], policy) by { NothingToExplain(policy); }
    } else {
      var n := |actions| - 1;
      RunExplained(actions[..n], policy);
      StepExplained(Run(actions[..n], policy), actions[..n], actions[n], policy);
      assert actions == actions[..n] + [actions[n]];
    }
  }

  lemma NothingToExplain(policy: Policy)
    ensures ErrorsExplained(INITIAL, [], policy)
  {
  }

  /** In every interleaving, an error rebuild follows a connection error of its lookup, and happens only
      if retrying is on. */
  lemma ErrorRebuildsFollowErrors(actions: seq<Action>, policy: Policy, k: nat)
    requires k < |Run(actions, policy).rebuilds| && Run(actions, policy).rebuilds[k].cause == OnError
    ensures policy.retryOnce && Move(Run(actions, policy).rebuilds[k].author, ConnectionError) in actions
  {
    hide Run;
    RunExplained(actions, policy);
  }

  // ----- no lookup is stuck

  /** How many steps a lookup still has to make at most. */
  function StepsLeft(pc: Pc): nat {
    match pc
    case CheckIdle => 18
    case AwaitIdleLock => 17
    case RecheckIdle => 16
    case AwaitIdleFactory => 15
    case InstallIdle => 14
    case BumpIdle => 13
    case SampleGeneration => 12
    case ReadInner => 11
    case AwaitFirst => 10
    case AwaitErrorLock => 9
    case CompareGeneration => 8
    case AwaitErrorFactory => 7
    case InstallError => 6
    case BumpError => 5
    case AwaitFresh => 4
    case RereadInner => 4
    case AwaitRetry => 3
    case MarkActive => 1
    case MarkLocked => 1
    case Finished => 0
  }

  predicate AwaitsLock(pc: Pc) {
    pc.AwaitIdleLock? || pc.AwaitErrorLock?
  }

  lemma MoveAdvances(s: State, id: nat, reply: Reply, policy: Policy)
    requires id in s.lookups && !s.lookups[id].pc.Finished? && (AwaitsLock(s.lookups[id].pc) ==> s.lock.None?)
    ensures var t := MoveOne(s, id, reply, policy);
            id in t.lookups && StepsLeft(t.lookups[id].pc) < StepsLeft(s.lookups[id].pc)
  {
  }

  /** In every interleaving, while some lookup is unfinished, one that is can make a step, whatever it
      is answered; and each step brings its lookup nearer to the end and moves no other. */
  lemma NoDeadlock(actions: seq<Action>, policy: Policy, id: nat, reply: Reply) returns (k: nat)
    requires id in Run(actions, policy).lookups && !Run(actions, policy).lookups[id].pc.Finished?
    ensures var s := Run(actions, policy);
            && k in s.lookups && !s.lookups[k].pc.Finished? && (s.lock.None? ==> k == id)
            && var t := MoveOne(s, k, reply, policy);
            && t.lookups.Keys == s.lookups.Keys
            && StepsLeft(t.lookups[k].pc) < StepsLeft(s.lookups[k].pc)
            && forall j :: j in s.lookups && j != k ==> t.lookups[j] == s.lookups[j]
  {
    RunOk(actions, policy);
    hide Run, MoveOne, StepsLeft;
    var s := Run(actions, policy);
    k := if s.lock.Some? then s.lock.value else id;
    assert LookupOk(s, k, policy);
    assert s.lock.Some? ==> Locked(s.lookups[k].pc);
    MoveAdvances(s, k, reply, policy);
    MoverKeeps(s, k, reply, policy);
  }
}
