/** The receiver's fragment cache (src/hysteria2_server.rs, reassemble_hysteria2_udp_fragment): an
    LRU map from (session, packet) to the fragments received so far, limited in entries, in
    bytes per packet and in total bytes. */
module FragmentCache {
  import opened Common
  import opened Slots

  const MAX_ENTRIES := 256
  const MAX_PACKET_BYTES := 65535
  const MAX_CACHE_BYTES := 4 * 1024 * 1024

  datatype Key = Key(sessionId: nat, packetId: nat)

  /** A destination parsed from the address text of a datagram. */
  datatype Location = Location(host: seq<byte>, port: nat)

  datatype Packet = Packet(count: nat, received: nat, len: nat, slots: seq<Option<seq<byte>>>,
      location: Option<Location>)

  /** `order` lists the keys, most recently used first. */
  datatype Cache = Cache(order: seq<Key>, packets: map<Key, Packet>)

  datatype Prepared = Prepared(location: Location, payload: seq<byte>)

  datatype Error =
    | EmptyTotal | BadFragmentId | PacketTooBig | CacheFull
    | CacheLost | MissingAddress | MissingFragment

  type Reply = Result<Option<Prepared>, Error>

  datatype Outcome = Outcome(cache: Cache, reply: Reply)

  /** One fragment as it comes off the wire. */
  datatype Arrival = Arrival(key: Key, id: nat, count: nat, location: Location, payload: seq<byte>)

  // ----- LRU operations

  function Without(order: seq<Key>, key: Key): seq<Key> {
    if order == [] then []
    else if order[0] == key then Without(order[1..], key)
    else [order[0]] + Without(order[1..], key)
  }

  function Touch(c: Cache, key: Key): Cache {
    c.(order := [key] + Without(c.order, key))
  }

  function Pop(c: Cache, key: Key): Cache {
    Cache(Without(c.order, key), c.packets - {key})
  }

  /** Drop the least recently used entry of a full cache. */
  function Trim(c: Cache): Cache {
    if |c.order| < MAX_ENTRIES then c else Pop(c, c.order[|c.order| - 1])
  }

  function Put(c: Cache, key: Key, p: Packet): Cache {
    var c1 := if key in c.packets then c else Trim(c);
    Cache([key] + Without(c1.order, key), c1.packets[key := p])
  }

  function TotalBytes(order: seq<Key>, packets: map<Key, Packet>): nat {
    if order == [] then 0
    else (if order[0] in packets then packets[order[0]].len else 0) + TotalBytes(order[1..], packets)
  }

  // ----- one fragment

  function FreshPacket(count: nat): Packet {
    Packet(count, 0, 0, seq(count, _ => None), None)
  }

  /** The cache with an entry for this packet at the front: the one there, if it expects the
      same number of fragments, or else an empty one. */
  function Open(c: Cache, key: Key, count: nat): Cache {
    if key in c.packets && c.packets[key].count == count then Touch(c, key)
    else Put(c, key, FreshPacket(count))
  }

  function WithFragment(p: Packet, a: Arrival): Packet
    requires a.id < |p.slots|
  {
    Packet(p.count, p.received + 1, p.len + |a.payload|, p.slots[a.id := Some(a.payload)],
      if a.id == 0 then Some(a.location) else p.location)
  }

  function Reassemble(c: Cache, a: Arrival): Outcome
    requires a.id < a.count
    requires a.key in c.packets && c.packets[a.key].count == a.count ==> |c.packets[a.key].slots| == a.count
  {
    var c1 := Open(c, a.key, a.count);
    var p := c1.packets[a.key];
    if p.slots[a.id].Some? then Outcome(c1, Ok(None))
    else if p.len + |a.payload| > MAX_PACKET_BYTES then Outcome(Pop(c1, a.key), Err(PacketTooBig))
    else if TotalBytes(c1.order, c1.packets) + |a.payload| > MAX_CACHE_BYTES then
      Outcome(Pop(c1, a.key), Err(CacheFull))
    else
      var q := WithFragment(p, a);
      if !AllPresent(q.slots) then Outcome(c1.(packets := c1.packets[a.key := q]), Ok(None))
      else if q.location.None? then Outcome(Pop(c1, a.key), Err(MissingAddress))
      else Outcome(Pop(c1, a.key), Ok(Some(Prepared(q.location.value, Joined(q.slots)))))
  }

  function Prepare(c: Cache, a: Arrival): Outcome
    requires SlotsFit(c)
  {
    if a.count == 0 then Outcome(c, Err(EmptyTotal))
    else if a.id >= a.count then Outcome(c, Err(BadFragmentId))
    else if a.count == 1 then Outcome(c, Ok(Some(Prepared(a.location, a.payload))))
    else Reassemble(c, a)
  }

  function DropSession(c: Cache, sessionId: nat): Cache {
    Cache(WithoutSession(c.order, sessionId), map k | k in c.packets && k.sessionId != sessionId :: c.packets[k])
  }

  function WithoutSession(order: seq<Key>, sessionId: nat): seq<Key> {
    if order == [] then []
    else if order[0].sessionId == sessionId then WithoutSession(order[1..], sessionId)
    else [order[0]] + WithoutSession(order[1..], sessionId)
  }

  // ----- the invariant

  predicate SlotsFit(c: Cache) {
    forall k :: k in c.packets ==> |c.packets[k].slots| == c.packets[k].count
  }

  function SlotBytes(slots: seq<Option<seq<byte>>>): nat {
    if slots == [] then 0 else (if slots[0].Some? then |slots[0].value| else 0) + SlotBytes(slots[1..])
  }

  /** Counters agree with the stored fragments, and the address is there exactly with fragment 0. */
  predicate PacketShape(p: Packet) {
    && 2 <= p.count <= 255
    && |p.slots| == p.count
    && p.received == Filled(p.slots) < p.count
    && p.len == SlotBytes(p.slots) <= MAX_PACKET_BYTES
    && (p.location.Some? <==> p.slots[0].Some?)
  }

  predicate PacketOk(p: Packet) {
    PacketShape(p) && 1 <= p.received
  }

  ghost predicate Distinct(order: seq<Key>) {
    forall i, j :: 0 <= i < j < |order| ==> order[i] != order[j]
  }

  /** The order lists exactly the cached keys, once each. */
  ghost predicate Listed(c: Cache) {
    && Distinct(c.order)
    && (forall k :: k in c.order <==> k in c.packets)
  }

  ghost predicate CacheOk(c: Cache) {
    && Listed(c)
    && |c.order| <= MAX_ENTRIES
    && TotalBytes(c.order, c.packets) <= MAX_CACHE_BYTES
    && forall k :: k in c.packets ==> PacketOk(c.packets[k])
  }

  // ----- LRU lemmas

  lemma {:induction false} WithoutElems(order: seq<Key>, key: Key)
    ensures forall k :: k in Without(order, key) <==> k in order && k != key
    ensures |Without(order, key)| <= |order|
    ensures key in order ==> |Without(order, key)| < |order|
  {
    if order != [] {
      WithoutElems(order[1..], key);
      assert order == [order[0]] + order[1..];
    }
  }

  lemma {:induction false} WithoutDistinct(order: seq<Key>, key: Key)
    requires Distinct(order)
    ensures Distinct(Without(order, key))
  {
    if order != [] {
      WithoutDistinct(order[1..], key);
      WithoutElems(order[1..], key);
      var rest := Without(order[1..], key);
      if order[0] != key {
        assert order[0] !in order[1..];
        assert order[0] !in rest;
      }
    }
  }

  lemma {:induction false} TotalWithout(order: seq<Key>, packets: map<Key, Packet>, key: Key)
    requires Distinct(order) && key in order && key in packets
    ensures TotalBytes(order, packets) == packets[key].len + TotalBytes(Without(order, key), packets)
  {
    if order[0] == key {
      assert key !in order[1..];
      WithoutAbsent(order[1..], key);
    } else {
      TotalWithout(order[1..], packets, key);
    }
  }

  lemma {:induction false} WithoutAbsent(order: seq<Key>, key: Key)
    requires key !in order
    ensures Without(order, key) == order
  {
    if order != [] {
      WithoutAbsent(order[1..], key);
    }
  }

  lemma {:induction false} TotalAgrees(order: seq<Key>, packets: map<Key, Packet>, other: map<Key, Packet>)
    requires forall k :: k in order ==> (k in packets <==> k in other)
    requires forall k :: k in order && k in packets ==> packets[k].len == other[k].len
    ensures TotalBytes(order, packets) == TotalBytes(order, other)
  {
    if order != [] {
      TotalAgrees(order[1..], packets, other);
    }
  }

  /** Removing an entry gives back exactly its bytes. */
  lemma PopListed(c: Cache, key: Key)
    requires Listed(c)
    ensures Listed(Pop(c, key)) && |Pop(c, key).order| <= |c.order|
    ensures key in c.packets ==>
      && |Pop(c, key).order| < |c.order|
      && TotalBytes(c.order, c.packets) == c.packets[key].len + TotalBytes(Pop(c, key).order, Pop(c, key).packets)
    ensures key !in c.packets ==> Pop(c, key) == c
  {
    WithoutElems(c.order, key);
    WithoutDistinct(c.order, key);
    if key in c.packets {
      TotalWithout(c.order, c.packets, key);
    } else {
      WithoutAbsent(c.order, key);
    }
    TotalAgrees(Without(c.order, key), c.packets, c.packets - {key});
  }

  /** Moving or putting an entry at the front changes the total by that entry alone. */
  lemma FrontListed(c: Cache, key: Key, p: Packet)
    requires Listed(c)
    ensures var front := Cache([key] + Without(c.order, key), c.packets[key := p]);
            && Listed(front)
            && |front.order| <= |c.order| + 1
            && (key in c.packets ==> |front.order| <= |c.order|)
            && TotalBytes(front.order, front.packets) + (if key in c.packets then c.packets[key].len else 0)
               == p.len + TotalBytes(c.order, c.packets)
  {
    var rest := Without(c.order, key);
    WithoutElems(c.order, key);
    WithoutDistinct(c.order, key);
    var order := [key] + rest;
    assert order[1..] == rest;
    TotalAgrees(rest, c.packets, c.packets[key := p]);
    if key in c.packets {
      TotalWithout(c.order, c.packets, key);
    } else {
      WithoutAbsent(c.order, key);
    }
  }

  // ----- what every fragment keeps

  lemma {:induction false} SlotBytesAt(slots: seq<Option<seq<byte>>>, i: nat, v: seq<byte>)
    requires i < |slots| && slots[i].None?
    ensures SlotBytes(slots[i := Some(v)]) == SlotBytes(slots) + |v|
  {
    var updated := slots[i := Some(v)];
    if i == 0 {
      assert updated[1..] == slots[1..];
    } else {
      assert updated[1..] == slots[1..][i - 1 := Some(v)];
      SlotBytesAt(slots[1..], i - 1, v);
    }
  }

  lemma {:induction false} SlotBytesNone(slots: seq<Option<seq<byte>>>)
    requires forall i :: 0 <= i < |slots| ==> slots[i].None?
    ensures SlotBytes(slots) == 0
  {
    if slots != [] {
      SlotBytesNone(slots[1..]);
    }
  }

  /** The invariant, except that the entry of `key`, at the front, may still be empty. */
  ghost predicate Opened(c: Cache, key: Key, count: nat) {
    && Listed(c)
    && 0 < |c.order| <= MAX_ENTRIES && c.order[0] == key
    && TotalBytes(c.order, c.packets) <= MAX_CACHE_BYTES
    && (forall k :: k in c.packets && k != key ==> PacketOk(c.packets[k]))
    && key in c.packets && PacketShape(c.packets[key]) && c.packets[key].count == count
    && (PacketOk(c.packets[key]) || c.packets[key] == FreshPacket(count))
  }

  lemma FreshShape(count: nat)
    requires 2 <= count <= 255
    ensures PacketShape(FreshPacket(count)) && FreshPacket(count).received == 0
  {
    FilledNone(FreshPacket(count).slots);
    SlotBytesNone(FreshPacket(count).slots);
  }

  lemma TrimOk(c: Cache)
    requires CacheOk(c)
    ensures CacheOk(Trim(c)) && |Trim(c).order| < MAX_ENTRIES
    ensures TotalBytes(Trim(c).order, Trim(c).packets) <= TotalBytes(c.order, c.packets)
  {
    if |c.order| >= MAX_ENTRIES {
      PopListed(c, c.order[|c.order| - 1]);
    }
  }

  lemma OpenOk(c: Cache, key: Key, count: nat)
    requires CacheOk(c) && 2 <= count <= 255
    ensures Opened(Open(c, key, count), key, count)
    ensures var o := Open(c, key, count); TotalBytes(o.order, o.packets) <= TotalBytes(c.order, c.packets)
  {
    hide PacketOk, PacketShape, TotalBytes, Without, Filled, SlotBytes, Distinct, FreshPacket;
    FreshShape(count);
    if key in c.packets && c.packets[key].count == count {
      OkIsShape(c.packets[key]);
      FrontListed(c, key, c.packets[key]);
      assert c.packets[key := c.packets[key]] == c.packets;
    } else if key in c.packets {
      FrontListed(c, key, FreshPacket(count));
      FreshLen(count);
    } else {
      TrimOk(c);
      TrimAbsent(c, key);
      FrontListed(Trim(c), key, FreshPacket(count));
      FreshLen(count);
    }
  }

  lemma FreshLen(count: nat)
    ensures FreshPacket(count).len == 0 && FreshPacket(count).count == count
  {
  }

  lemma TrimAbsent(c: Cache, key: Key)
    requires key !in c.packets
    ensures key !in Trim(c).packets
  {
  }

  lemma OkIsShape(p: Packet)
    requires PacketOk(p)
    ensures PacketShape(p)
  {
  }

  lemma FragmentShape(p: Packet, a: Arrival)
    requires PacketShape(p) && a.id < p.count && p.slots[a.id].None? && p.len + |a.payload| <= MAX_PACKET_BYTES
    ensures var q := WithFragment(p, a);
            && |q.slots| == q.count == p.count && q.received == Filled(q.slots) >= 1 && q.len == SlotBytes(q.slots)
            && (q.location.Some? <==> q.slots[0].Some?)
            && (AllPresent(q.slots) <==> q.received == q.count)
            && (!AllPresent(q.slots) ==> PacketOk(q))
            && (AllPresent(q.slots) ==> q.location.Some?)
  {
    FilledAt(p.slots, a.id, a.payload);
    SlotBytesAt(p.slots, a.id, a.payload);
    FilledAll(WithFragment(p, a).slots);
  }

  /** Replacing the front entry. */
  lemma ReplaceFront(c: Cache, key: Key, q: Packet)
    requires Listed(c) && c.order != [] && c.order[0] == key && key in c.packets
    ensures var r := c.(packets := c.packets[key := q]);
            && Listed(r)
            && TotalBytes(r.order, r.packets) + c.packets[key].len == q.len + TotalBytes(c.order, c.packets)
  {
    assert key !in c.order[1..];
    WithoutAbsent(c.order[1..], key);
    assert c.order == [key] + Without(c.order, key);
    FrontListed(c, key, q);
  }

  lemma PopOpened(c: Cache, key: Key, count: nat)
    requires Opened(c, key, count)
    ensures CacheOk(Pop(c, key))
  {
    PopListed(c, key);
  }

  /** Every fragment keeps the invariant, and the three "cannot happen" errors do not happen. */
  lemma ReassembleOk(c: Cache, a: Arrival)
    requires CacheOk(c) && 2 <= a.count <= 255 && a.id < a.count
    ensures var o := Reassemble(c, a);
            && CacheOk(o.cache)
            && o.reply != Err(MissingAddress) && o.reply != Err(CacheLost) && o.reply != Err(MissingFragment)
  {
    hide PacketShape, TotalBytes, Without, Filled, SlotBytes, Listed, Open, Pop, WithFragment, AllPresent;
    KnownSlots(c);
    OpenOk(c, a.key, a.count);
    var c1 := Open(c, a.key, a.count);
    PopOpened(c1, a.key, a.count);
    var p := c1.packets[a.key];
    ShapeSlots(p);
    if p.slots[a.id].Some? {
      NotFresh(p, a.id);
    } else if p.len + |a.payload| <= MAX_PACKET_BYTES &&
        TotalBytes(c1.order, c1.packets) + |a.payload| <= MAX_CACHE_BYTES {
      FragmentShape(p, a);
      ReplaceFront(c1, a.key, WithFragment(p, a));
      AddedLen(p, a);
    }
  }

  lemma KnownSlots(c: Cache)
    requires CacheOk(c)
    ensures SlotsFit(c)
  {
  }

  lemma ShapeSlots(p: Packet)
    requires PacketShape(p)
    ensures |p.slots| == p.count
  {
  }

  lemma NotFresh(p: Packet, i: nat)
    requires i < |p.slots| && p.slots[i].Some?
    ensures p != FreshPacket(p.count)
  {
  }

  lemma AddedLen(p: Packet, a: Arrival)
    requires a.id < |p.slots|
    ensures WithFragment(p, a).len == p.len + |a.payload|
  {
  }

  lemma {:induction false} SessionListed(order: seq<Key>, packets: map<Key, Packet>, sessionId: nat)
    requires Distinct(order)
    ensures var kept := WithoutSession(order, sessionId);
            && Distinct(kept) && |kept| <= |order|
            && (forall k :: k in kept <==> k in order && k.sessionId != sessionId)
            && TotalBytes(kept, packets) <= TotalBytes(order, packets)
  {
    if order != [] {
      SessionListed(order[1..], packets, sessionId);
      assert order == [order[0]] + order[1..];
      assert order[0] !in order[1..];
    }
  }

  lemma DropSessionOk(c: Cache, sessionId: nat)
    requires CacheOk(c)
    ensures CacheOk(DropSession(c, sessionId))
  {
    SessionListed(c.order, c.packets, sessionId);
    TotalAgrees(WithoutSession(c.order, sessionId), c.packets, DropSession(c, sessionId).packets);
  }

  // ----- runs

  datatype Event = Fragment(arrival: Arrival) | SessionGone(sessionId: nat)

  /** Fields as wide as on the wire. */
  predicate EventOk(e: Event) {
    e.Fragment? ==> e.arrival.count <= 255
  }

  ghost function Step(c: Cache, e: Event): Outcome
    requires SlotsFit(c)
  {
    match e
    case Fragment(a) => Prepare(c, a)
    case SessionGone(s) => Outcome(DropSession(c, s), Ok(None))
  }

  ghost predicate Reachable(c: Cache, events: seq<Event>)
    decreases |events|
  {
    if events == [] then c == Cache([], map[])
    else
      var n := |events| - 1;
      EventOk(events[n]) &&
      exists prev :: Reachable(prev, events[..n]) && SlotsFit(prev) && c == Step(prev, events[n]).cache
  }

  lemma StepOk(c: Cache, e: Event)
    requires CacheOk(c) && EventOk(e)
    ensures SlotsFit(c)
    ensures var o := Step(c, e);
            && CacheOk(o.cache)
            && o.reply != Err(MissingAddress) && o.reply != Err(CacheLost) && o.reply != Err(MissingFragment)
  {
    hide CacheOk, Reassemble, DropSession;
    KnownSlots(c);
    match e
    case Fragment(a) =>
      if 2 <= a.count && a.id < a.count {
        ReassembleOk(c, a);
      }
    case SessionGone(s) => DropSessionOk(c, s);
  }

  /** In every run: at most 256 entries, at most 4 MiB, counters that count, an address exactly
      with fragment 0, no empty and no complete entry. */
  lemma {:induction false} RunOk(c: Cache, events: seq<Event>)
    requires Reachable(c, events)
    ensures CacheOk(c)
    decreases |events|
  {
    hide Step;
    if events != [] {
      var n := |events| - 1;
      var prev :| Reachable(prev, events[..n]) && SlotsFit(prev) && c == Step(prev, events[n]).cache;
      RunOk(prev, events[..n]);
      StepOk(prev, events[n]);
    }
  }

  /** Whatever came before, a fragment is never answered with the three internal errors. */
  lemma InternalErrorsUnreachable(c: Cache, events: seq<Event>, e: Event)
    requires Reachable(c, events) && EventOk(e)
    ensures SlotsFit(c)
    ensures Step(c, e).reply !in {Err(MissingAddress), Err(CacheLost), Err(MissingFragment)}
  {
    RunOk(c, events);
    StepOk(c, e);
  }
}
