/** A UDP packet sent in fragments and put together again (src/hysteria2_server.rs), among any
    other traffic on the connection. */
module UdpRoundTrip {
  import opened Common
  import opened Slots
  import opened UdpWire
  import opened FragmentCache

  /** Reading a destination out of an address text; it may fail. */
  type AddressParser = seq<byte> -> Option<Location>

  /** What the receiver does with one datagram; unreadable ones are ignored. */
  ghost function Receive(parse: AddressParser, c: Cache, raw: seq<byte>): Outcome
    requires SlotsFit(c)
  {
    match ArrivalIn(parse, raw)
    case None => Outcome(c, Ok(None))
    case Some(a) => Prepare(c, a)
  }

  ghost function ArrivalIn(parse: AddressParser, raw: seq<byte>): Option<Arrival> {
    match ParseDatagram(raw)
    case None => None
    case Some(d) =>
      match parse(d.address)
      case None => None
      case Some(location) =>
        Some(Arrival(Key(d.sessionId, d.packetId), d.fragmentId, d.fragmentCount, location, d.payload))
  }

  /** One packet under way: what it is, and the datagrams it was sent as, `room` bytes in each. */
  datatype Transfer = Transfer(parse: AddressParser, sessionId: nat, packetId: nat,
    address: seq<byte>, location: Location, payload: seq<byte>, room: nat, datagrams: seq<seq<byte>>)
  {
    function Key(): Key {
      FragmentCache.Key(sessionId, packetId)
    }

    /** The datagrams are what UdpWire.SendPacket gives for this packet, and the address text can be
        read. */
    ghost predicate Sent() {
      && 0 < room && 0 < |payload| <= MAX_PAYLOAD
      && Count() <= 255 && |datagrams| == Count()
      && parse(address) == Some(location)
      && forall i :: 0 <= i < Count() ==>
           ParseDatagram(datagrams[i]) ==
             Some(Datagram(sessionId, packetId, i, Count(), address, UdpWire.Fragment(payload, room, i)))
    }

    /** The packet was too big for one datagram. */
    ghost predicate Split() {
      Sent() && 2 <= Count()
    }

    function Count(): nat
      requires 0 < room
    {
      FragmentCount(|payload|, room)
    }

    function Piece(i: nat): Arrival
      requires 0 < room
    {
      Arrival(Key(), i, Count(), location, UdpWire.Fragment(payload, room, i))
    }

    ghost predicate Complete(got: set<nat>)
      requires 0 < room
    {
      forall i :: 0 <= i < Count() ==> i in got
    }

    ghost function Slots(got: set<nat>): seq<Option<seq<byte>>>
      requires 0 < room
    {
      seq(Count(), i requires 0 <= i < Count() => if i in got then Some(UdpWire.Fragment(payload, room, i)) else None)
    }

    /** The cache holds exactly the fragments `got`, at most `behind` places from the front. */
    ghost predicate Held(c: Cache, got: set<nat>, behind: nat)
      requires 0 < room
    {
      && Key() in c.packets
      && c.packets[Key()].count == Count()
      && c.packets[Key()].slots == Slots(got)
      && c.packets[Key()].location == (if 0 in got then Some(location) else None)
      && Within(c.order, Key(), behind)
    }
  }

  ghost predicate Within(order: seq<Key>, key: Key, behind: nat) {
    exists i :: 0 <= i <= behind && i < |order| && order[i] == key
  }

  /** Sending a packet: what SendPacket gives is a transfer as above. */
  method Send(parse: AddressParser, sessionId: nat, packetId: nat, address: seq<byte>, location: Location,
    payload: seq<byte>, maxSize: nat) returns (r: Result<Transfer, SendError>)
    requires sessionId < 0x1_0000_0000 && packetId < 0x1_0000
    requires 0 < |address| <= MAX_ADDRESS_LEN && 0 < |payload| <= MAX_PAYLOAD
    requires parse(address) == Some(location)
    ensures r.Ok? <==>
      maxSize > Overhead(address) && FragmentCount(|payload|, maxSize - Overhead(address)) <= 255
    ensures r.Ok? ==>
      && r.value.Sent()
      && r.value == Transfer(parse, sessionId, packetId, address, location, payload, maxSize - Overhead(address),
                             r.value.datagrams)
      && forall i :: 0 <= i < |r.value.datagrams| ==> |r.value.datagrams[i]| <= maxSize
  {
    hide ParseDatagram, FragmentCount;
    var sent := SendPacket(sessionId, packetId, address, payload, maxSize);
    if sent.Err? {
      match sent.error {
        case DatagramTooSmall => assert sent == Err(DatagramTooSmall);
        case TooManyFragments => assert sent == Err(TooManyFragments);
      }
      return Err(sent.error);
    }
    var room := maxSize - Overhead(address);
    return Ok(Transfer(parse, sessionId, packetId, address, location, payload, room, sent.value));
  }

  /** Delivery of one of our datagrams, of another datagram, or the end of some session. */
  datatype Step = Mine(index: nat) | Other(raw: seq<byte>) | Gone(sessionId: nat)

  ghost predicate StepFits(tr: Transfer, s: Step)
    requires tr.Sent()
  {
    match s
    case Mine(index) => index < tr.Count()
    case Other(raw) =>
      var a := ArrivalIn(tr.parse, raw);
      a.Some? ==> a.value.key != tr.Key() && a.value.count <= 255
    case Gone(sessionId) => sessionId != tr.sessionId
  }

  ghost function Take(tr: Transfer, c: Cache, s: Step): Outcome
    requires tr.Sent() && StepFits(tr, s) && SlotsFit(c)
  {
    match s
    case Mine(index) => Receive(tr.parse, c, tr.datagrams[index])
    case Other(raw) => Receive(tr.parse, c, raw)
    case Gone(sessionId) => Outcome(DropSession(c, sessionId), Ok(None))
  }

  /** What a step of others may add to the cache. */
  ghost function OtherBytes(tr: Transfer, s: Step): nat {
    match s
    case Mine(_) => 0
    case Other(raw) =>
      var a := ArrivalIn(tr.parse, raw);
      if a.Some? && 2 <= a.value.count then |a.value.payload| else 0
    case Gone(_) => 0
  }

  ghost predicate StepsFit(tr: Transfer, steps: seq<Step>) {
    && tr.Sent()
    && steps != [] && steps[0].Mine?
    && forall i :: 0 <= i < |steps| ==> StepFits(tr, steps[i])
  }

  /** Fragment bytes of others that arrive in the first `n` steps. */
  ghost function BytesIn(tr: Transfer, steps: seq<Step>, n: nat): nat
    requires n <= |steps|
  {
    if n == 0 then 0 else BytesIn(tr, steps, n - 1) + OtherBytes(tr, steps[n - 1])
  }

  /** A fragment of another packet: it comes to the front of the cache. */
  ghost predicate Pushes(tr: Transfer, s: Step) {
    && s.Other? && ArrivalIn(tr.parse, s.raw).Some?
    && var a := ArrivalIn(tr.parse, s.raw).value;
    2 <= a.count && a.id < a.count
  }

  /** How many fragments of others since the last delivery of ours, within the first `n` steps. */
  ghost function SinceMine(tr: Transfer, steps: seq<Step>, n: nat): nat
    requires n <= |steps|
  {
    if n == 0 || steps[n - 1].Mine? then 0
    else SinceMine(tr, steps, n - 1) + (if Pushes(tr, steps[n - 1]) then 1 else 0)
  }

  ghost function Delivered(steps: seq<Step>, n: nat): set<nat>
    requires n <= |steps|
  {
    set i | 0 <= i < n && steps[i].Mine? :: steps[i].index
  }

  /** The cache after the first `n` steps. */
  ghost function After(tr: Transfer, c: Cache, steps: seq<Step>, n: nat): (r: Cache)
    requires StepsFit(tr, steps) && n <= |steps| && CacheOk(c)
    ensures CacheOk(r)
  {
    if n == 0 then c
    else
      var prev := After(tr, c, steps, n - 1);
      TakeOk(tr, prev, steps[n - 1]);
      Take(tr, prev, steps[n - 1]).cache
  }

  /** The receiver's answer at step `n`. */
  ghost function Answer(tr: Transfer, c: Cache, steps: seq<Step>, n: nat): Reply
    requires StepsFit(tr, steps) && n < |steps| && CacheOk(c)
  {
    var prev := After(tr, c, steps, n);
    TakeOk(tr, prev, steps[n]);
    Take(tr, prev, steps[n]).reply
  }

  lemma TakeOk(tr: Transfer, c: Cache, s: Step)
    requires tr.Sent() && StepFits(tr, s) && CacheOk(c)
    ensures SlotsFit(c) && CacheOk(Take(tr, c, s).cache)
  {
    hide CacheOk, Prepare, DropSession;
    KnownSlots(c);
    match s
    case Mine(index) =>
      MineArrives(tr, index);
      StepOk(c, FragmentCache.Fragment(tr.Piece(index)));
    case Other(raw) =>
      var a := ArrivalIn(tr.parse, raw);
      if a.Some? {
        StepOk(c, FragmentCache.Fragment(a.value));
      }
    case Gone(sessionId) => DropSessionOk(c, sessionId);
  }

  lemma MineArrives(tr: Transfer, index: nat)
    requires tr.Sent() && index < tr.Count()
    ensures ArrivalIn(tr.parse, tr.datagrams[index]) == Some(tr.Piece(index))
  {
  }

  // ----- the sizes of partial packets

  lemma {:induction false} SlotBytesBelow(some: seq<Option<seq<byte>>>, more: seq<Option<seq<byte>>>)
    requires |some| == |more| && forall i :: 0 <= i < |some| ==> some[i].None? || some[i] == more[i]
    ensures SlotBytes(some) <= SlotBytes(more)
  {
    if some != [] {
      SlotBytesBelow(some[1..], more[1..]);
    }
  }

  lemma {:induction false} SlotBytesAll(slots: seq<Option<seq<byte>>>, parts: seq<seq<byte>>)
    requires |slots| == |parts| && forall i :: 0 <= i < |slots| ==> slots[i] == Some(parts[i])
    ensures SlotBytes(slots) == |Concat(parts)|
  {
    if slots != [] {
      SlotBytesAll(slots[1..], parts[1..]);
    }
  }

  /** However many fragments are there, they are no longer than the packet. */
  lemma PartialBytes(tr: Transfer, got: set<nat>)
    requires tr.Sent()
    ensures SlotBytes(tr.Slots(got)) <= |tr.payload|
  {
    hide Concat;
    var n := tr.Count();
    var parts := Fragments(tr.payload, tr.room, n);
    var full := seq(n, i requires 0 <= i < n => Some(parts[i]));
    SlotBytesBelow(tr.Slots(got), full);
    SlotBytesAll(full, parts);
    FragmentsConcat(tr.payload, tr.room);
  }

  lemma SlotsComplete(tr: Transfer, got: set<nat>)
    requires tr.Sent()
    ensures AllPresent(tr.Slots(got)) <==> tr.Complete(got)
    ensures tr.Complete(got) ==> Joined(tr.Slots(got)) == tr.payload
  {
    var slots := tr.Slots(got);
    forall i | 0 <= i < tr.Count() ensures slots[i].Some? <==> i in got {}
    if tr.Complete(got) {
      var n := tr.Count();
      assert seq(n, i requires 0 <= i < n => slots[i].value) == Fragments(tr.payload, tr.room, n);
      FragmentsConcat(tr.payload, tr.room);
    }
  }

  // ----- our own fragments

  /** Our entry, opened and at the front, with fragments `got`. */
  lemma StoreMine(tr: Transfer, c: Cache, index: nat, got: set<nat>)
    requires tr.Split() && index < tr.Count() && CacheOk(c)
    requires var c1 := Open(c, tr.Key(), tr.Count());
             && Opened(c1, tr.Key(), tr.Count()) && tr.Held(c1, got, 0)
             && (index !in got ==> TotalBytes(c1.order, c1.packets) + |tr.Piece(index).payload| <= MAX_CACHE_BYTES)
    ensures SlotsFit(c)
    ensures var o := Reassemble(c, tr.Piece(index));
            if index !in got && tr.Complete(got + {index}) then
              o.reply == Ok(Some(Prepared(tr.location, tr.payload))) && tr.Key() !in o.cache.packets
            else o.reply == Ok(None) && tr.Held(o.cache, got + {index}, 0)
  {
    hide CacheOk, Open, Joined, AllPresent, Opened, SlotBytes, TotalBytes, FragmentCount, UdpWire.Fragment;
    KnownSlots(c);
    var c1 := Open(c, tr.Key(), tr.Count());
    var p := c1.packets[tr.Key()];
    var slots := tr.Slots(got);
    if index in got {
      assert slots[index].Some?;
      assert got + {index} == got;
    } else {
      var more := got + {index};
      MineSize(tr, c1, index, got);
      assert slots[index := Some(tr.Piece(index).payload)] == tr.Slots(more);
      SlotsComplete(tr, more);
    }
  }

  lemma MineSize(tr: Transfer, c1: Cache, index: nat, got: set<nat>)
    requires tr.Split() && index < tr.Count() && index !in got
    requires Opened(c1, tr.Key(), tr.Count()) && tr.Held(c1, got, 0)
    ensures c1.packets[tr.Key()].len + |tr.Piece(index).payload| <= MAX_PACKET_BYTES
    ensures c1.packets[tr.Key()].slots[index].None?
  {
    hide Listed, UdpWire.Fragment;
    var slots := tr.Slots(got);
    assert slots[index].None?;
    SlotBytesAt(slots, index, tr.Piece(index).payload);
    assert slots[index := Some(tr.Piece(index).payload)] == tr.Slots(got + {index});
    PartialBytes(tr, got + {index});
  }

  lemma OpenFirst(tr: Transfer, c: Cache)
    requires tr.Split() && CacheOk(c) && tr.Key() !in c.packets
    ensures tr.Held(Open(c, tr.Key(), tr.Count()), {}, 0)
  {
    hide CacheOk;
    var c1 := Open(c, tr.Key(), tr.Count());
    assert c1.order[0] == tr.Key();
    assert c1.packets[tr.Key()].slots == tr.Slots({});
  }

  lemma OpenAgain(tr: Transfer, c: Cache, got: set<nat>, behind: nat)
    requires tr.Split() && CacheOk(c) && tr.Held(c, got, behind)
    ensures tr.Held(Open(c, tr.Key(), tr.Count()), got, 0)
  {
    hide CacheOk;
    var c1 := Open(c, tr.Key(), tr.Count());
    assert c1.order[0] == tr.Key();
  }

  lemma TakeMine(tr: Transfer, c: Cache, index: nat, got: set<nat>)
    requires tr.Split() && index < tr.Count() && CacheOk(c)
    requires tr.Held(Open(c, tr.Key(), tr.Count()), got, 0)
    requires index !in got ==> TotalBytes(c.order, c.packets) + |tr.Piece(index).payload| <= MAX_CACHE_BYTES
    ensures SlotsFit(c)
    ensures var o := Take(tr, c, Mine(index));
            && (index !in got && tr.Complete(got + {index}) ==>
                  o.reply == Ok(Some(Prepared(tr.location, tr.payload))) && tr.Key() !in o.cache.packets)
            && (!tr.Complete(got + {index}) ==> o.reply == Ok(None) && tr.Held(o.cache, got + {index}, 0))
  {
    hide CacheOk, Open, Reassemble, TotalBytes, tr.Held;
    KnownSlots(c);
    OpenOk(c, tr.Key(), tr.Count());
    StoreMine(tr, c, index, got);
    MineArrives(tr, index);
  }

  // ----- other traffic

  lemma {:induction false} WithinWithout(order: seq<Key>, key: Key, other: Key, behind: nat)
    requires Within(order, key, behind) && key != other
    ensures Within(Without(order, other), key, behind)
  {
    var i :| 0 <= i <= behind && i < |order| && order[i] == key;
    if order[0] == other {
      assert order[1..][i - 1] == key;
      assert Within(order[1..], key, behind - 1);
      WithinWithout(order[1..], key, other, behind - 1);
      var j :| 0 <= j <= behind - 1 && j < |Without(order, other)| && Without(order, other)[j] == key;
    } else if i == 0 {
      assert Without(order, other)[0] == key;
    } else {
      assert order[1..][i - 1] == key;
      assert Within(order[1..], key, behind - 1);
      WithinWithout(order[1..], key, other, behind - 1);
      WithinFront(Without(order[1..], other), key, order[0], behind - 1);
    }
  }

  lemma WithinFront(order: seq<Key>, key: Key, other: Key, behind: nat)
    requires Within(order, key, behind)
    ensures Within([other] + order, key, behind + 1)
  {
    var i :| 0 <= i <= behind && i < |order| && order[i] == key;
    assert ([other] + order)[i + 1] == key;
  }

  lemma {:induction false} WithinSession(order: seq<Key>, key: Key, sessionId: nat, behind: nat)
    requires Within(order, key, behind) && key.sessionId != sessionId
    ensures Within(WithoutSession(order, sessionId), key, behind)
  {
    var i :| 0 <= i <= behind && i < |order| && order[i] == key;
    if order[0].sessionId == sessionId {
      assert order[1..][i - 1] == key;
      assert Within(order[1..], key, behind - 1);
      WithinSession(order[1..], key, sessionId, behind - 1);
      var j :| 0 <= j <= behind - 1 && j < |WithoutSession(order, sessionId)| &&
          WithoutSession(order, sessionId)[j] == key;
    } else if i == 0 {
      assert WithoutSession(order, sessionId)[0] == key;
    } else {
      assert order[1..][i - 1] == key;
      assert Within(order[1..], key, behind - 1);
      WithinSession(order[1..], key, sessionId, behind - 1);
      WithinFront(WithoutSession(order[1..], sessionId), key, order[0], behind - 1);
    }
  }

  /** Removing another entry keeps ours, no further from the front. */
  lemma PopKeeps(tr: Transfer, c: Cache, other: Key, got: set<nat>, behind: nat)
    requires tr.Sent() && tr.Held(c, got, behind) && other != tr.Key()
    ensures tr.Held(Pop(c, other), got, behind)
  {
    WithinWithout(c.order, tr.Key(), other, behind);
  }

  /** An entry less than 255 places from the front is not the one a full cache drops. */
  lemma TrimKeeps(tr: Transfer, c: Cache, got: set<nat>, behind: nat)
    requires tr.Sent() && Listed(c) && tr.Held(c, got, behind) && behind < MAX_ENTRIES - 1
    ensures tr.Held(Trim(c), got, behind)
  {
    hide tr.Slots, tr.Sent, tr.Count;
    if |c.order| >= MAX_ENTRIES {
      var last := c.order[|c.order| - 1];
      var i :| 0 <= i <= behind && i < |c.order| && c.order[i] == tr.Key();
      assert last != tr.Key();
      PopKeeps(tr, c, last, got, behind);
    }
  }

  lemma OpenKeeps(tr: Transfer, c: Cache, other: Key, count: nat, got: set<nat>, behind: nat)
    requires tr.Sent() && CacheOk(c) && tr.Held(c, got, behind) && other != tr.Key() && behind < MAX_ENTRIES - 1
    ensures tr.Held(Open(c, other, count), got, behind + 1)
  {
    assert Listed(c);
    hide CacheOk, Listed, Trim, Within, Without, tr.Slots, tr.Sent, tr.Count;
    TrimKeeps(tr, c, got, behind);
    var c1 := if other in c.packets then c else Trim(c);
    WithinWithout(c1.order, tr.Key(), other, behind);
    WithinFront(Without(c1.order, other), tr.Key(), other, behind);
  }

  lemma OtherFragment(tr: Transfer, c: Cache, a: Arrival, got: set<nat>, behind: nat)
    requires tr.Sent() && CacheOk(c) && tr.Held(c, got, behind) && behind < MAX_ENTRIES - 1
    requires a.key != tr.Key() && 2 <= a.count <= 255 && a.id < a.count
    ensures SlotsFit(c) && tr.Held(Reassemble(c, a).cache, got, behind + 1)
  {
    hide CacheOk, Open, Pop, TotalBytes, WithFragment, AllPresent, Joined, tr.Slots;
    KnownSlots(c);
    OpenOk(c, a.key, a.count);
    OpenKeeps(tr, c, a.key, a.count, got, behind);
    PopKeeps(tr, Open(c, a.key, a.count), a.key, got, behind + 1);
  }

  lemma GoneKeeps(tr: Transfer, c: Cache, sessionId: nat, got: set<nat>, behind: nat)
    requires tr.Sent() && tr.Held(c, got, behind) && sessionId != tr.sessionId
    ensures tr.Held(DropSession(c, sessionId), got, behind)
  {
    WithinSession(c.order, tr.Key(), sessionId, behind);
  }

  lemma TakeOther(tr: Transfer, c: Cache, s: Step, got: set<nat>, behind: nat)
    requires tr.Sent() && StepFits(tr, s) && !s.Mine? && CacheOk(c)
    requires tr.Held(c, got, behind) && (Pushes(tr, s) ==> behind < MAX_ENTRIES - 1)
    ensures SlotsFit(c) && tr.Held(Take(tr, c, s).cache, got, behind + (if Pushes(tr, s) then 1 else 0))
  {
    hide CacheOk, Reassemble, DropSession, tr.Held;
    KnownSlots(c);
    match s
    case Other(raw) =>
      var a := ArrivalIn(tr.parse, raw);
      if Pushes(tr, s) {
        OtherFragment(tr, c, a.value, got, behind);
      }
    case Gone(sessionId) =>
      GoneKeeps(tr, c, sessionId, got, behind);
  }

  // ----- the byte budget

  lemma ReassembleBytes(c: Cache, a: Arrival)
    requires CacheOk(c) && 2 <= a.count <= 255 && a.id < a.count
    ensures SlotsFit(c)
    ensures var o := Reassemble(c, a).cache;
            TotalBytes(o.order, o.packets) <= TotalBytes(c.order, c.packets) + |a.payload|
  {
    hide CacheOk, Open, Pop, TotalBytes, PacketShape, WithFragment, AllPresent, Joined;
    KnownSlots(c);
    OpenOk(c, a.key, a.count);
    var c1 := Open(c, a.key, a.count);
    PopListed(c1, a.key);
    var p := c1.packets[a.key];
    ShapeSlots(p);
    if p.slots[a.id].None? {
      ReplaceFront(c1, a.key, WithFragment(p, a));
      AddedLen(p, a);
    }
  }

  /** A fragment that is there already adds nothing. */
  lemma DuplicateBytes(c: Cache, a: Arrival)
    requires CacheOk(c) && 2 <= a.count <= 255 && a.id < a.count
    requires var c1 := Open(c, a.key, a.count);
             Opened(c1, a.key, a.count) && |c1.packets[a.key].slots| == a.count && c1.packets[a.key].slots[a.id].Some?
    ensures SlotsFit(c)
    ensures var o := Reassemble(c, a).cache;
            TotalBytes(o.order, o.packets) <= TotalBytes(c.order, c.packets)
  {
    hide CacheOk, Open, Pop, TotalBytes, PacketShape, WithFragment, AllPresent, Joined;
    KnownSlots(c);
    OpenOk(c, a.key, a.count);
  }

  /** The fragments held, as bytes. */
  ghost function HeldBytes(tr: Transfer, got: set<nat>): nat
    requires 0 < tr.room
  {
    SlotBytes(tr.Slots(got))
  }

  /** One of ours adds its bytes to the cache exactly if it adds them to the fragments held. */
  lemma MineBytes(tr: Transfer, c: Cache, index: nat, got: set<nat>)
    requires tr.Split() && index < tr.Count() && CacheOk(c)
    requires tr.Held(Open(c, tr.Key(), tr.Count()), got, 0)
    ensures SlotsFit(c)
    ensures var o := Take(tr, c, Mine(index)).cache;
            TotalBytes(o.order, o.packets) + HeldBytes(tr, got)
              <= TotalBytes(c.order, c.packets) + HeldBytes(tr, got + {index})
  {
    hide CacheOk, Open, Reassemble, TotalBytes, SlotBytes;
    KnownSlots(c);
    MineArrives(tr, index);
    OpenOk(c, tr.Key(), tr.Count());
    if index in got {
      var slots := tr.Slots(got);
      assert slots[index].Some?;
      assert got + {index} == got;
      DuplicateBytes(c, tr.Piece(index));
    } else {
      ReassembleBytes(c, tr.Piece(index));
      PieceBytes(tr, index, got);
    }
  }

  lemma PieceBytes(tr: Transfer, index: nat, got: set<nat>)
    requires tr.Sent() && index < tr.Count() && index !in got
    ensures HeldBytes(tr, got + {index}) == HeldBytes(tr, got) + |tr.Piece(index).payload|
  {
    hide UdpWire.Fragment, SlotBytes;
    var slots := tr.Slots(got);
    assert slots[index].None?;
    SlotBytesAt(slots, index, tr.Piece(index).payload);
    assert slots[index := Some(tr.Piece(index).payload)] == tr.Slots(got + {index});
  }

  lemma OtherTakeBytes(tr: Transfer, c: Cache, s: Step)
    requires tr.Sent() && StepFits(tr, s) && CacheOk(c) && !s.Mine?
    ensures SlotsFit(c)
    ensures var o := Take(tr, c, s).cache;
            TotalBytes(o.order, o.packets) <= TotalBytes(c.order, c.packets) + OtherBytes(tr, s)
  {
    hide CacheOk, Reassemble, TotalBytes, tr.Count;
    KnownSlots(c);
    match s
    case Other(raw) =>
      var a := ArrivalIn(tr.parse, raw);
      if a.Some? && 2 <= a.value.count && a.value.id < a.value.count {
        ReassembleBytes(c, a.value);
      }
    case Gone(sessionId) =>
      DropBytes(c, sessionId);
  }

  lemma DropBytes(c: Cache, sessionId: nat)
    requires CacheOk(c)
    ensures var o := DropSession(c, sessionId);
            TotalBytes(o.order, o.packets) <= TotalBytes(c.order, c.packets)
  {
    SessionListed(c.order, c.packets, sessionId);
    TotalAgrees(WithoutSession(c.order, sessionId), c.packets, DropSession(c, sessionId).packets);
  }

  lemma {:induction false} BytesGrow(tr: Transfer, steps: seq<Step>, m: nat, n: nat)
    requires m <= n <= |steps|
    ensures BytesIn(tr, steps, m) <= BytesIn(tr, steps, n)
  {
    hide OtherBytes;
    if m < n {
      BytesGrow(tr, steps, m, n - 1);
    }
  }

  // ----- the round trip

  /** The premises of the round trip: our packet is not under way, between two deliveries of ours
      at most 255 fragments of others arrive, and the byte budget has room for the packet and for
      the fragments of others. */
  ghost predicate Undisturbed(tr: Transfer, c: Cache, steps: seq<Step>) {
    && StepsFit(tr, steps) && CacheOk(c) && tr.Key() !in c.packets
    && (forall n :: 0 <= n <= |steps| ==> SinceMine(tr, steps, n) < MAX_ENTRIES)
    && TotalBytes(c.order, c.packets) + |tr.payload| + BytesIn(tr, steps, |steps|) <= MAX_CACHE_BYTES
  }

  lemma DeliveredNext(steps: seq<Step>, n: nat)
    requires n < |steps|
    ensures Delivered(steps, n + 1) ==
      if steps[n].Mine? then Delivered(steps, n) + {steps[n].index} else Delivered(steps, n)
  {
  }

  /** The cache after `n` steps holds the fragments delivered and, besides what it held before and
      what others sent, no more bytes than these. */
  ghost predicate HeldAt(tr: Transfer, c: Cache, steps: seq<Step>, n: nat)
    requires StepsFit(tr, steps) && n <= |steps| && CacheOk(c)
  {
    var a := After(tr, c, steps, n);
    var got := Delivered(steps, n);
    && tr.Held(a, got, SinceMine(tr, steps, n))
    && TotalBytes(a.order, a.packets) <= TotalBytes(c.order, c.packets) + BytesIn(tr, steps, n) + HeldBytes(tr, got)
  }

  /** The budget has room for a fragment that is not there yet. */
  lemma RoomForMine(tr: Transfer, c: Cache, steps: seq<Step>, n: nat, index: nat)
    requires Undisturbed(tr, c, steps) && n < |steps| && index < tr.Count()
    requires n > 0 ==> HeldAt(tr, c, steps, n)
    ensures var a := After(tr, c, steps, n);
            index !in Delivered(steps, n) ==>
              TotalBytes(a.order, a.packets) + |tr.Piece(index).payload| <= MAX_CACHE_BYTES
  {
    hide CacheOk, Take, TotalBytes, tr.Held, SinceMine, HeldBytes, UdpWire.Fragment;
    var got := Delivered(steps, n);
    BytesGrow(tr, steps, n, |steps|);
    if index !in got {
      PieceBytes(tr, index, got);
      HeldWithin(tr, got + {index});
    }
  }

  lemma HeldWithin(tr: Transfer, got: set<nat>)
    requires tr.Sent()
    ensures HeldBytes(tr, got) <= |tr.payload|
  {
    PartialBytes(tr, got);
  }

  lemma NothingHeld(tr: Transfer)
    requires tr.Sent()
    ensures HeldBytes(tr, {}) == 0
  {
    SlotBytesNone(tr.Slots({}));
  }

  /** Delivering one of ours at step `n`, once the cache holds the earlier ones. */
  lemma MineAt(tr: Transfer, c: Cache, steps: seq<Step>, n: nat)
    requires Undisturbed(tr, c, steps) && tr.Split() && n < |steps| && steps[n].Mine?
    requires n > 0 ==> HeldAt(tr, c, steps, n)
    ensures var got := Delivered(steps, n);
            && (steps[n].index !in got && tr.Complete(got + {steps[n].index}) ==>
                  && Answer(tr, c, steps, n) == Ok(Some(Prepared(tr.location, tr.payload)))
                  && tr.Key() !in After(tr, c, steps, n + 1).packets)
            && (!tr.Complete(got + {steps[n].index}) ==>
                  && Answer(tr, c, steps, n) == Ok(None)
                  && HeldAt(tr, c, steps, n + 1))
  {
    hide CacheOk, Take, TotalBytes, tr.Held, Open, tr.Complete, HeldBytes;
    var prev := After(tr, c, steps, n);
    var got := Delivered(steps, n);
    var index := steps[n].index;
    RoomForMine(tr, c, steps, n, index);
    DeliveredNext(steps, n);
    if n == 0 {
      OpenFirst(tr, c);
      NothingHeld(tr);
      assert got == {};
    } else {
      OpenAgain(tr, prev, got, SinceMine(tr, steps, n));
    }
    TakeMine(tr, prev, index, got);
    MineBytes(tr, prev, index, got);
  }

  /** A step of others at `n`, while fragments are missing. */
  lemma OtherAt(tr: Transfer, c: Cache, steps: seq<Step>, n: nat)
    requires Undisturbed(tr, c, steps) && 0 < n < |steps| && !steps[n].Mine?
    requires HeldAt(tr, c, steps, n)
    ensures HeldAt(tr, c, steps, n + 1)
  {
    hide CacheOk, Take, TotalBytes, tr.Held, HeldBytes, OtherBytes, Pushes, tr.Sent, StepFits;
    var prev := After(tr, c, steps, n);
    DeliveredNext(steps, n);
    assert SinceMine(tr, steps, n + 1) < MAX_ENTRIES;
    TakeOther(tr, prev, steps[n], Delivered(steps, n), SinceMine(tr, steps, n));
    OtherTakeBytes(tr, prev, steps[n]);
  }

  /** A packet of one datagram is complete with it. */
  lemma MissingMeansSplit(tr: Transfer, steps: seq<Step>, n: nat)
    requires StepsFit(tr, steps) && 0 < n <= |steps| && !tr.Complete(Delivered(steps, n))
    ensures tr.Split()
  {
    assert StepFits(tr, steps[0]);
    assert steps[0].index in Delivered(steps, n);
    hide FragmentCount;
  }

  /** While fragments are missing, the cache holds exactly those delivered, near the front. */
  lemma {:induction false} HoldsDelivered(tr: Transfer, c: Cache, steps: seq<Step>, n: nat)
    requires Undisturbed(tr, c, steps) && 0 < n <= |steps|
    requires !tr.Complete(Delivered(steps, n))
    ensures HeldAt(tr, c, steps, n)
    ensures steps[n - 1].Mine? ==> Answer(tr, c, steps, n - 1) == Ok(None)
  {
    hide CacheOk, Take, After, TotalBytes, HeldAt, tr.Sent, StepFits, BytesIn, SinceMine;
    MissingMeansSplit(tr, steps, n);
    DeliveredNext(steps, n - 1);
    if n > 1 {
      Incomplete(tr, steps, n - 1, n);
      HoldsDelivered(tr, c, steps, n - 1);
    }
    if steps[n - 1].Mine? {
      MineAt(tr, c, steps, n - 1);
    } else {
      OtherAt(tr, c, steps, n - 1);
    }
  }

  lemma Incomplete(tr: Transfer, steps: seq<Step>, i: nat, n: nat)
    requires tr.Sent() && i <= n <= |steps| && !tr.Complete(Delivered(steps, n))
    ensures !tr.Complete(Delivered(steps, i))
  {
    assert Delivered(steps, i) <= Delivered(steps, n);
  }

  /** A packet that fits one datagram is handed out at once and never cached. */
  lemma OneDatagram(tr: Transfer, c: Cache, steps: seq<Step>)
    requires StepsFit(tr, steps) && CacheOk(c) && tr.Key() !in c.packets && tr.Count() == 1 && |steps| == 1
    ensures Answer(tr, c, steps, 0) == Ok(Some(Prepared(tr.location, tr.payload)))
    ensures tr.Key() !in After(tr, c, steps, 1).packets
  {
    hide CacheOk, Reassemble, FragmentCount;
    KnownSlots(c);
    assert StepFits(tr, steps[0]);
    MineArrives(tr, 0);
    OnlyFragment(tr);
    assert After(tr, c, steps, 0) == c;
  }

  lemma OnlyFragment(tr: Transfer)
    requires tr.Sent() && tr.Count() == 1
    ensures UdpWire.Fragment(tr.payload, tr.room, 0) == tr.payload
  {
    FragmentsConcat(tr.payload, tr.room);
    var parts := Fragments(tr.payload, tr.room, 1);
    assert parts[1..] == [] && Concat(parts) == parts[0] + Concat(parts[1..]);
    assert parts[0] + [] == parts[0];
  }

  /** The round trip.  However the fragments of a packet are ordered, duplicated and mixed with
      other traffic within those premises, nothing is returned for the packet before its last
      missing fragment arrives; then the payload and fragment 0's address are returned, and
      nothing of the packet stays in the cache. */
  lemma RoundTrip(tr: Transfer, c: Cache, steps: seq<Step>)
    requires Undisturbed(tr, c, steps)
    requires tr.Complete(Delivered(steps, |steps|)) && !tr.Complete(Delivered(steps, |steps| - 1))
    ensures forall i :: 0 <= i < |steps| - 1 && steps[i].Mine? ==> Answer(tr, c, steps, i) == Ok(None)
    ensures Answer(tr, c, steps, |steps| - 1) == Ok(Some(Prepared(tr.location, tr.payload)))
    ensures tr.Key() !in After(tr, c, steps, |steps|).packets
  {
    hide CacheOk, Take, After, TotalBytes, HeldAt, tr.Sent, tr.Count, StepFits, BytesIn, SinceMine, Delivered;
    var last := |steps| - 1;
    DeliveredNext(steps, last);
    if last == 0 {
      OnlyStep(tr, c, steps);
      return;
    }
    MissingMeansSplit(tr, steps, last);
    forall i | 0 <= i < last && steps[i].Mine?
      ensures Answer(tr, c, steps, i) == Ok(None)
    {
      Incomplete(tr, steps, i + 1, last);
      HoldsDelivered(tr, c, steps, i + 1);
    }
    HoldsDelivered(tr, c, steps, last);
    LastIsNew(Delivered(steps, last), Delivered(steps, last + 1), steps[last]);
    MineAt(tr, c, steps, last);
  }

  lemma OnlyStep(tr: Transfer, c: Cache, steps: seq<Step>)
    requires Undisturbed(tr, c, steps) && |steps| == 1 && tr.Complete(Delivered(steps, 1))
    ensures Answer(tr, c, steps, 0) == Ok(Some(Prepared(tr.location, tr.payload)))
    ensures tr.Key() !in After(tr, c, steps, 1).packets
  {
    hide CacheOk, Take, After, TotalBytes, BytesIn, SinceMine, FragmentCount;
    assert StepFits(tr, steps[0]);
    assert Delivered(steps, 1) == {steps[0].index};
    assert tr.Count() == 1 by {
      assert 0 in Delivered(steps, 1);
      assert 1 !in Delivered(steps, 1);
    }
    OneDatagram(tr, c, steps);
  }

  lemma LastIsNew(got: set<nat>, more: set<nat>, s: Step)
    requires got != more && more == if s.Mine? then got + {s.index} else got
    ensures s.Mine? && s.index !in got
  {
  }
}
