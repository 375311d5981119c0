/** What holds in every run of the fragment cache, beyond FragmentCache.RunOk: what a packet handed out
    is made of, and which answer a fragment gets. */
module FragmentRuns {
  import opened Common
  import opened Slots
  import opened FragmentCache

  // ----- where a packet comes from

  /** Event `e` brought fragment `i` of `count` of the packet `key`, with content `v`. */
  predicate Carried(e: Event, key: Key, count: nat, i: nat, v: seq<byte>) {
    e.Fragment? && e.arrival.key == key && e.arrival.count == count && e.arrival.id == i && e.arrival.payload == v
  }

  /** The session has not ended since event `j`. */
  ghost predicate StillOpen(events: seq<Event>, j: nat, sessionId: nat) {
    forall k :: j < k < |events| ==> events[k] != SessionGone(sessionId)
  }

  ghost predicate Arrived(events: seq<Event>, key: Key, count: nat, i: nat, v: seq<byte>) {
    exists j :: 0 <= j < |events| && Carried(events[j], key, count, i, v) && StillOpen(events, j, key.sessionId)
  }

  /** Fragment 0 arrived with this content and address. */
  ghost predicate FirstArrived(events: seq<Event>, key: Key, count: nat, v: seq<byte>, location: Location) {
    exists j :: 0 <= j < |events| && Carried(events[j], key, count, 0, v) && events[j].arrival.location == location
                && StillOpen(events, j, key.sessionId)
  }

  ghost predicate SlotsTraced(p: Packet, events: seq<Event>, key: Key) {
    forall i :: 0 <= i < |p.slots| && p.slots[i].Some? ==> Arrived(events, key, p.count, i, p.slots[i].value)
  }

  ghost predicate FirstTraced(p: Packet, events: seq<Event>, key: Key) {
    |p.slots| > 0 && p.slots[0].Some? && p.location.Some? ==>
      FirstArrived(events, key, p.count, p.slots[0].value, p.location.value)
  }

  ghost predicate PacketTraced(p: Packet, events: seq<Event>, key: Key) {
    SlotsTraced(p, events, key) && FirstTraced(p, events, key)
  }

  ghost predicate Traced(c: Cache, events: seq<Event>) {
    forall k :: k in c.packets ==> PacketTraced(c.packets[k], events, k)
  }

  /** The packet is the concatenation of its fragments, each of which arrived in the session that is
      still open, and its address came with fragment 0. */
  ghost predicate Assembled(p: Prepared, events: seq<Event>, key: Key, count: nat) {
    exists parts: seq<seq<byte>> ::
      && |parts| == count > 0
      && p.payload == Concat(parts)
      && (forall i :: 0 <= i < count ==> Arrived(events, key, count, i, parts[i]))
      && FirstArrived(events, key, count, parts[0], p.location)
  }

  lemma ArrivedEarlier(events: seq<Event>, e: Event, key: Key, count: nat, i: nat, v: seq<byte>)
    requires Arrived(events, key, count, i, v) && e != SessionGone(key.sessionId)
    ensures Arrived(events + [e], key, count, i, v)
  {
    var j :| 0 <= j < |events| && Carried(events[j], key, count, i, v) && StillOpen(events, j, key.sessionId);
    assert (events + [e])[j] == events[j];
    assert StillOpen(events + [e], j, key.sessionId);
  }

  lemma FirstEarlier(events: seq<Event>, e: Event, key: Key, count: nat, v: seq<byte>, location: Location)
    requires FirstArrived(events, key, count, v, location) && e != SessionGone(key.sessionId)
    ensures FirstArrived(events + [e], key, count, v, location)
  {
    var j :| 0 <= j < |events| && Carried(events[j], key, count, 0, v) && events[j].arrival.location == location
             && StillOpen(events, j, key.sessionId);
    assert (events + [e])[j] == events[j];
    assert StillOpen(events + [e], j, key.sessionId);
  }

  lemma PacketEarlier(p: Packet, events: seq<Event>, e: Event, key: Key)
    requires PacketTraced(p, events, key) && e != SessionGone(key.sessionId)
    ensures PacketTraced(p, events + [e], key)
  {
    hide Arrived, FirstArrived;
    forall i | 0 <= i < |p.slots| && p.slots[i].Some?
      ensures Arrived(events + [e], key, p.count, i, p.slots[i].value)
    {
      ArrivedEarlier(events, e, key, p.count, i, p.slots[i].value);
    }
    if |p.slots| > 0 && p.slots[0].Some? && p.location.Some? {
      FirstEarlier(events, e, key, p.count, p.slots[0].value, p.location.value);
    }
  }

  lemma TracedEarlier(c: Cache, events: seq<Event>, e: Event)
    requires Traced(c, events) && e.Fragment?
    ensures Traced(c, events + [e])
  {
    hide PacketTraced;
    forall k | k in c.packets ensures PacketTraced(c.packets[k], events + [e], k) {
      PacketEarlier(c.packets[k], events, e, k);
    }
  }

  /** This fragment itself has arrived. */
  lemma JustArrived(events: seq<Event>, a: Arrival)
    ensures var all := events + [Fragment(a)];
            && Arrived(all, a.key, a.count, a.id, a.payload)
            && (a.id == 0 ==> FirstArrived(all, a.key, a.count, a.payload, a.location))
  {
    var all := events + [Fragment(a)];
    assert Carried(all[|events|], a.key, a.count, a.id, a.payload) && StillOpen(all, |events|, a.key.sessionId);
  }

  lemma OpenTraced(c: Cache, events: seq<Event>, key: Key, count: nat)
    requires Traced(c, events)
    ensures var c1 := Open(c, key, count); key in c1.packets && Traced(c1, events)
  {
    hide Without, Arrived, FirstArrived;
    assert PacketTraced(FreshPacket(count), events, key);
    var c1 := Open(c, key, count);
    forall k | k in c1.packets ensures PacketTraced(c1.packets[k], events, k) {
      assert k in c.packets ==> PacketTraced(c.packets[k], events, k);
    }
  }

  lemma WithTraced(p: Packet, events: seq<Event>, a: Arrival)
    requires PacketTraced(p, events, a.key) && a.id < |p.slots| && p.count == a.count
    requires Arrived(events, a.key, a.count, a.id, a.payload)
    requires a.id == 0 ==> FirstArrived(events, a.key, a.count, a.payload, a.location)
    ensures PacketTraced(WithFragment(p, a), events, a.key)
  {
    hide Arrived, FirstArrived;
  }

  lemma JoinedAssembled(q: Packet, events: seq<Event>, key: Key)
    requires PacketTraced(q, events, key) && |q.slots| == q.count > 0 && AllPresent(q.slots) && q.location.Some?
    ensures Assembled(Prepared(q.location.value, Joined(q.slots)), events, key, q.count)
  {
    hide Arrived, FirstArrived, Concat;
    var parts := seq(|q.slots|, i requires 0 <= i < |q.slots| => q.slots[i].value);
    assert forall i :: 0 <= i < q.count ==> Arrived(events, key, q.count, i, parts[i]);
  }

  /** All fragments but this one are cached. */
  ghost predicate LastMissing(c: Cache, a: Arrival) {
    && a.key in c.packets && c.packets[a.key].count == a.count == |c.packets[a.key].slots| && a.id < a.count
    && c.packets[a.key].slots[a.id].None?
    && forall i :: 0 <= i < a.count && i != a.id ==> c.packets[a.key].slots[i].Some?
  }

  lemma OpenedFrom(c: Cache, key: Key, count: nat)
    ensures var c1 := Open(c, key, count);
            && key in c1.packets
            && c1.packets[key] == (if key in c.packets && c.packets[key].count == count then c.packets[key]
                                   else FreshPacket(count))
  {
    hide Without;
  }

  lemma FreshIsEmpty(count: nat)
    ensures |FreshPacket(count).slots| == count && forall i :: 0 <= i < count ==> FreshPacket(count).slots[i].None?
  {
  }

  lemma CompleteWith(c: Cache, a: Arrival, p: Packet)
    requires 2 <= a.count && a.id < a.count == |p.slots| && p.slots[a.id].None?
    requires p == (if a.key in c.packets && c.packets[a.key].count == a.count then c.packets[a.key]
                   else FreshPacket(a.count))
    ensures AllPresent(WithFragment(p, a).slots) <==> LastMissing(c, a)
  {
    var slots := WithFragment(p, a).slots;
    assert forall i :: 0 <= i < |p.slots| && i != a.id ==> slots[i] == p.slots[i];
    FreshIsEmpty(a.count);
    var other: nat := if a.id == 0 then 1 else 0;
    assert slots[other] == p.slots[other];
  }

  /** The entry opened for a fragment that has arrived. */
  ghost predicate Ready(c: Cache, all: seq<Event>, a: Arrival) {
    var c1 := Open(c, a.key, a.count);
    && Traced(c1, all)
    && a.key in c1.packets && c1.packets[a.key].count == a.count == |c1.packets[a.key].slots|
    && Arrived(all, a.key, a.count, a.id, a.payload)
    && (a.id == 0 ==> FirstArrived(all, a.key, a.count, a.payload, a.location))
  }

  lemma OpenReady(c: Cache, events: seq<Event>, a: Arrival)
    requires CacheOk(c) && 2 <= a.count <= 255 && Traced(c, events)
    ensures Ready(c, events + [Fragment(a)], a)
  {
    var all := events + [Fragment(a)];
    TracedEarlier(c, events, Fragment(a));
    OpenTraced(c, all, a.key, a.count);
    OpenOk(c, a.key, a.count);
    JustArrived(events, a);
    hide Open, Traced, Arrived, FirstArrived;
  }

  lemma ReadyPacket(c: Cache, all: seq<Event>, a: Arrival)
    requires Ready(c, all, a) && a.id < a.count
    ensures PacketTraced(WithFragment(Open(c, a.key, a.count).packets[a.key], a), all, a.key)
  {
    hide Open, Arrived, FirstArrived, WithFragment, PacketTraced;
    WithTraced(Open(c, a.key, a.count).packets[a.key], all, a);
  }

  lemma TracedAfter(c: Cache, all: seq<Event>, a: Arrival)
    requires SlotsFit(c) && a.id < a.count && Ready(c, all, a)
    ensures Traced(Reassemble(c, a).cache, all)
  {
    ReadyPacket(c, all, a);
    hide Open, Without, Arrived, FirstArrived, Joined, TotalBytes, PacketTraced, WithFragment, AllPresent;
  }

  lemma HandedOut(c: Cache, all: seq<Event>, a: Arrival)
    requires SlotsFit(c) && 2 <= a.count && a.id < a.count && Ready(c, all, a)
    requires Reassemble(c, a).reply.Ok? && Reassemble(c, a).reply.value.Some?
    ensures Assembled(Reassemble(c, a).reply.value.value, all, a.key, a.count) && LastMissing(c, a)
  {
    ReadyPacket(c, all, a);
    OpenedFrom(c, a.key, a.count);
    var p := Open(c, a.key, a.count).packets[a.key];
    hide Open, Without, Traced, Arrived, FirstArrived, Assembled, Joined, TotalBytes, PacketTraced, LastMissing;
    JoinedAssembled(WithFragment(p, a), all, a.key);
    CompleteWith(c, a, p);
  }

  lemma ReassembleTraced(c: Cache, events: seq<Event>, a: Arrival)
    requires CacheOk(c) && 2 <= a.count <= 255 && a.id < a.count && Traced(c, events)
    ensures SlotsFit(c)
    ensures var o := Reassemble(c, a);
            && Traced(o.cache, events + [Fragment(a)])
            && (o.reply.Ok? && o.reply.value.Some? ==>
                  && Assembled(o.reply.value.value, events + [Fragment(a)], a.key, a.count)
                  && LastMissing(c, a))
  {
    KnownSlots(c);
    OpenReady(c, events, a);
    hide CacheOk, Ready, Reassemble, Traced, Assembled, LastMissing;
    TracedAfter(c, events + [Fragment(a)], a);
    if Reassemble(c, a).reply.Ok? && Reassemble(c, a).reply.value.Some? {
      HandedOut(c, events + [Fragment(a)], a);
    }
  }

  lemma StepTraced(c: Cache, events: seq<Event>, e: Event)
    requires CacheOk(c) && EventOk(e) && Traced(c, events)
    ensures SlotsFit(c) && Traced(Step(c, e).cache, events + [e])
  {
    KnownSlots(c);
    match e
    case Fragment(a) =>
      TracedEarlier(c, events, e);
      if 2 <= a.count && a.id < a.count {
        ReassembleTraced(c, events, a);
      }
    case SessionGone(sessionId) =>
      hide PacketTraced;
      var kept := DropSession(c, sessionId);
      forall k | k in kept.packets ensures PacketTraced(kept.packets[k], events + [e], k) {
        PacketEarlier(c.packets[k], events, e, k);
      }
  }

  lemma {:induction false} RunTraced(c: Cache, events: seq<Event>)
    requires Reachable(c, events)
    ensures Traced(c, events)
    decreases |events|
  {
    hide Step, PacketTraced;
    if events != [] {
      var n := |events| - 1;
      var prev :| Reachable(prev, events[..n]) && SlotsFit(prev) && c == Step(prev, events[n]).cache;
      RunTraced(prev, events[..n]);
      RunOk(prev, events[..n]);
      StepTraced(prev, events[..n], events[n]);
      assert events == events[..n] + [events[n]];
    }
  }

  /** In every run, a packet is handed out only for a fragment: an unfragmented one as it came, any
      other with its last missing fragment.  It is then the concatenation of fragments of that
      session, packet id and count, each in its position, all arrived since the session began, with
      the address that came with fragment 0, and no longer than a UDP packet. */
  lemma PacketsNeverMix(c: Cache, events: seq<Event>, e: Event)
    requires Reachable(c, events) && EventOk(e)
    ensures SlotsFit(c)
    ensures var reply := Step(c, e).reply;
            reply.Ok? && reply.value.Some? ==>
              && e.Fragment?
              && var a, p := e.arrival, reply.value.value;
              if a.count == 1 then a.id == 0 && p == Prepared(a.location, a.payload)
              else 2 <= a.count && LastMissing(c, a) && Assembled(p, events + [e], a.key, a.count)
                   && |p.payload| <= MAX_PACKET_BYTES
  {
    RunOk(c, events);
    RunTraced(c, events);
    KnownSlots(c);
    if e.Fragment? && 2 <= e.arrival.count && e.arrival.id < e.arrival.count {
      ReassembleTraced(c, events, e.arrival);
      PacketBounded(c, e.arrival);
    }
  }

  lemma {:induction false} JoinedBytes(slots: seq<Option<seq<byte>>>)
    requires AllPresent(slots)
    ensures |Joined(slots)| == SlotBytes(slots)
  {
    var parts := seq(|slots|, i requires 0 <= i < |slots| => slots[i].value);
    if slots != [] {
      JoinedBytes(slots[1..]);
      var rest := slots[1..];
      assert parts[1..] == seq(|rest|, i requires 0 <= i < |rest| => rest[i].value);
    }
  }

  lemma PacketBounded(c: Cache, a: Arrival)
    requires CacheOk(c) && 2 <= a.count <= 255 && a.id < a.count
    ensures SlotsFit(c)
    ensures var reply := Reassemble(c, a).reply;
            reply.Ok? && reply.value.Some? ==> |reply.value.value.payload| <= MAX_PACKET_BYTES
  {
    KnownSlots(c);
    OpenOk(c, a.key, a.count);
    var p := Open(c, a.key, a.count).packets[a.key];
    ShapeSlots(p);
    if p.slots[a.id].None? && p.len + |a.payload| <= MAX_PACKET_BYTES {
      FragmentShape(p, a);
      var q := WithFragment(p, a);
      if AllPresent(q.slots) {
        JoinedBytes(q.slots);
      }
    }
  }

  // ----- which answer a fragment gets

  /** The fragments cached for this packet, if any with this count. */
  function HeldSlots(c: Cache, a: Arrival): seq<Option<seq<byte>>> {
    if a.key in c.packets && c.packets[a.key].count == a.count then c.packets[a.key].slots
    else seq(a.count, _ => None)
  }

  /** The least recently used key. */
  function Oldest(c: Cache): Key
    requires c.order != []
  {
    c.order[|c.order| - 1]
  }

  /** A new entry in a full cache. */
  predicate Evicts(c: Cache, a: Arrival) {
    a.key !in c.packets && |c.order| >= MAX_ENTRIES && Oldest(c) in c.packets
  }

  /** The bytes the cache would hold without what opening this packet's entry drops: an entry of that
      packet with another count, or the least recently used one of a full cache. */
  function StayingBytes(c: Cache, a: Arrival): nat {
    var total := TotalBytes(c.order, c.packets);
    if a.key in c.packets && c.packets[a.key].count == a.count then total
    else if a.key in c.packets then total - Min(total, c.packets[a.key].len)
    else if Evicts(c, a) then total - Min(total, c.packets[Oldest(c)].len)
    else total
  }

  lemma OpenBytes(c: Cache, a: Arrival)
    requires CacheOk(c) && 2 <= a.count <= 255
    ensures var c1 := Open(c, a.key, a.count); TotalBytes(c1.order, c1.packets) == StayingBytes(c, a)
  {
    hide TotalBytes, PacketOk, Without, Distinct;
    FreshLen(a.count);
    if a.key in c.packets {
      var q := if c.packets[a.key].count == a.count then c.packets[a.key] else FreshPacket(a.count);
      FrontListed(c, a.key, q);
      PopListed(c, a.key);
      assert c.packets[a.key := c.packets[a.key]] == c.packets;
    } else {
      if |c.order| >= MAX_ENTRIES {
        PopListed(c, Oldest(c));
      }
      FrontListed(Trim(c), a.key, FreshPacket(a.count));
    }
  }

  /** Every answer, exactly: the four refusals, the packet, and silence. */
  lemma AnswersExactly(c: Cache, a: Arrival)
    requires CacheOk(c) && a.count <= 255
    ensures SlotsFit(c)
    ensures var r := Prepare(c, a).reply;
            var held := HeldSlots(c, a);
            var fragment := 2 <= a.count && a.id < a.count;
            var missing := fragment && a.id < |held| && held[a.id].None?;
            var fits := SlotBytes(held) + |a.payload| <= MAX_PACKET_BYTES;
            var budget := StayingBytes(c, a) + |a.payload| <= MAX_CACHE_BYTES;
            && |held| == a.count
            && (r == Err(EmptyTotal) <==> a.count == 0)
            && (r == Err(BadFragmentId) <==> 0 < a.count <= a.id)
            && (r == Err(PacketTooBig) <==> missing && !fits)
            && (r == Err(CacheFull) <==> missing && fits && !budget)
            && (r.Ok? && r.value.Some? <==>
                  (a.count == 1 && a.id == 0) || (missing && fits && budget && LastMissing(c, a)))
            && (r == Ok(None) <==> fragment && (!missing || (fits && budget && !LastMissing(c, a))))
  {
    KnownSlots(c);
    if 2 <= a.count && a.id < a.count {
      OpenedFrom(c, a.key, a.count);
      OpenOk(c, a.key, a.count);
      OpenBytes(c, a);
      var p := Open(c, a.key, a.count).packets[a.key];
      assert p.slots == HeldSlots(c, a) && p.len == SlotBytes(p.slots) && |p.slots| == a.count;
      hide CacheOk, Open, Without, StayingBytes, HeldSlots, Joined, TotalBytes, SlotBytes, Filled, WithFragment;
      if p.slots[a.id].None? && p.len + |a.payload| <= MAX_PACKET_BYTES {
        FragmentShape(p, a);
        CompleteWith(c, a, p);
      }
      FreshIsEmpty(a.count);
    }
  }

  lemma AfterOpening(c: Cache, a: Arrival)
    requires SlotsFit(c) && a.id < a.count
    requires var c1 := Open(c, a.key, a.count);
             a.key in c1.packets && c1.packets[a.key].count == a.count == |c1.packets[a.key].slots|
    ensures var o, p := Reassemble(c, a), Open(c, a.key, a.count).packets[a.key];
            if o.reply != Ok(None) then a.key !in o.cache.packets
            else
              && a.key in o.cache.packets
              && o.cache.packets[a.key] == if p.slots[a.id].Some? then p else WithFragment(p, a)
  {
    hide Open, WithFragment, Joined, AllPresent, TotalBytes, Without;
  }

  /** After a refusal for size or budget, and after the packet was handed out, nothing of it is
      cached; otherwise exactly this fragment was added. */
  lemma CacheAfter(c: Cache, a: Arrival)
    requires CacheOk(c) && 2 <= a.count <= 255 && a.id < a.count
    ensures SlotsFit(c) && |HeldSlots(c, a)| == a.count
    ensures var o, held := Prepare(c, a), HeldSlots(c, a);
            if o.reply != Ok(None) then a.key !in o.cache.packets
            else
              && a.key in o.cache.packets
              && o.cache.packets[a.key].count == a.count
              && o.cache.packets[a.key].slots ==
                   (if held[a.id].Some? then held else held[a.id := Some(a.payload)])
  {
    KnownSlots(c);
    OpenedFrom(c, a.key, a.count);
    hide Reassemble, Open, CacheOk;
    AfterOpening(c, a);
  }

  lemma OpenOthers(c: Cache, a: Arrival, k: Key)
    requires CacheOk(c) && k != a.key
    ensures var c1 := Open(c, a.key, a.count);
            && (k in c1.packets <==> k in c.packets && !(Evicts(c, a) && k == Oldest(c)))
            && (k in c1.packets ==> c1.packets[k] == c.packets[k])
  {
    hide Without, TotalBytes, PacketOk, Distinct;
  }

  lemma ReassembleOthers(c: Cache, a: Arrival, k: Key)
    requires SlotsFit(c) && a.id < a.count && k != a.key
    ensures var o, c1 := Reassemble(c, a), Open(c, a.key, a.count);
            && (k in o.cache.packets <==> k in c1.packets)
            && (k in o.cache.packets ==> o.cache.packets[k] == c1.packets[k])
  {
    OpenedFrom(c, a.key, a.count);
    hide Open, WithFragment, Joined, AllPresent, TotalBytes, Without;
  }

  /** Other packets are left as they are, except the least recently used one, which goes when a new
      packet comes to a full cache. */
  lemma OthersKept(c: Cache, a: Arrival, k: Key)
    requires CacheOk(c) && k != a.key
    ensures SlotsFit(c)
    ensures var o := Prepare(c, a);
            && (k in o.cache.packets <==>
                  k in c.packets && !(2 <= a.count && a.id < a.count && Evicts(c, a) && k == Oldest(c)))
            && (k in o.cache.packets ==> o.cache.packets[k] == c.packets[k])
  {
    KnownSlots(c);
    hide Reassemble, Open, CacheOk;
    if 2 <= a.count && a.id < a.count {
      OpenOthers(c, a, k);
      ReassembleOthers(c, a, k);
    }
  }
}
