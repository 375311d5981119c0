/** The receiver's reassembly as the program runs it (src/hysteria2_server.rs), lookup by lookup on
    an LRU map, proved to implement FragmentCache.Prepare.  The error branches the program
    keeps for cache inconsistencies are all here; that the result equals `Prepare` under the
    invariant shows that none of them is taken. */
module FragmentMaps {
  import opened Common
  import opened Slots
  import opened FragmentCache

  class FragmentMap {
    var order: seq<Key>
    var packets: map<Key, Packet>

    ghost function View(): Cache
      reads this
    {
      Cache(order, packets)
    }

    constructor ()
      ensures CacheOk(View()) && Reachable(View(), [])
    {
      order, packets := [], map[];
    }

    /** Lookup; a hit becomes the most recently used entry. */
    method Get(key: Key) returns (p: Option<Packet>)
      modifies this`order
      ensures p == if key in packets then Some(packets[key]) else None
      ensures View() == if key in old(packets) then Touch(old(View()), key) else old(View())
    {
      if key !in packets {
        return None;
      }
      order := [key] + Without(order, key);
      return Some(packets[key]);
    }

    method PutPacket(key: Key, p: Packet)
      modifies this
      ensures View() == Put(old(View()), key, p)
    {
      if key !in packets && |order| >= MAX_ENTRIES {
        var last := order[|order| - 1];
        order, packets := Without(order, last), packets - {last};
      }
      order, packets := [key] + Without(order, key), packets[key := p];
    }

    method Remove(key: Key) returns (p: Option<Packet>)
      modifies this
      ensures p == if key in old(packets) then Some(old(packets)[key]) else None
      ensures View() == Pop(old(View()), key)
    {
      p := if key in packets then Some(packets[key]) else None;
      order, packets := Without(order, key), packets - {key};
    }

    method CachedBytes() returns (total: nat)
      requires Listed(View())
      ensures total == TotalBytes(order, packets)
    {
      total := 0;
      var i := 0;
      assert order[0..] == order;
      while i < |order|
        invariant 0 <= i <= |order|
        invariant total + TotalBytes(order[i..], packets) == TotalBytes(order, packets)
      {
        assert order[i] in order;
        total := total + packets[order[i]].len;
        i := i + 1;
      }
    }

    /** One fragment of a packet of at least two. */
    method ReassembleFragment(a: Arrival) returns (reply: Reply)
      requires CacheOk(View()) && 2 <= a.count <= 255 && a.id < a.count
      modifies this
      ensures SlotsFit(old(View()))
      ensures Outcome(View(), reply) == Reassemble(old(View()), a)
    {
      ghost var c := View();
      KnownSlots(c);
      OpenOk(c, a.key, a.count);
      OpenEntry(a.key, a.count);
      ghost var c1 := View();
      TouchFront(c1, a.key);
      var found := Get(a.key);
      if found.None? {
        return Err(CacheLost);
      }
      var p := found.value;
      ShapeSlots(p);
      if p.slots[a.id].Some? {
        return Ok(None);
      }
      if p.len + |a.payload| > MAX_PACKET_BYTES {
        var _ := Remove(a.key);
        return Err(PacketTooBig);
      }
      var cached := CachedBytes();
      if cached + |a.payload| > MAX_CACHE_BYTES {
        var _ := Remove(a.key);
        return Err(CacheFull);
      }
      reply := StoreFragment(a);
    }

    method OpenEntry(key: Key, count: nat)
      modifies this
      ensures View() == Open(old(View()), key, count)
    {
      if key in packets {
        TouchTwice(View(), key);
      }
      var found := Get(key);
      if found.None? || found.value.count != count {
        PutPacket(key, Packet(count, 0, 0, seq(count, _ => None), None));
      }
    }

    /** Puts the fragment into its entry and says whether that is complete. */
    method AddFragment(a: Arrival) returns (complete: Option<bool>)
      requires Opened(View(), a.key, a.count) && a.id < a.count
      requires packets[a.key].slots[a.id].None? && packets[a.key].len + |a.payload| <= MAX_PACKET_BYTES
      modifies this
      ensures var c1 := old(View());
              var q := WithFragment(c1.packets[a.key], a);
              View() == c1.(packets := c1.packets[a.key := q]) && complete == Some(AllPresent(q.slots))
    {
      hide Opened, PacketShape, PacketOk, Without, Joined;
      ghost var c1 := View();
      OpenedEntry(c1, a.key, a.count);
      TouchFront(c1, a.key);
      var found := Get(a.key);
      if found.None? {
        return None;
      }
      var p := found.value;
      FragmentShape(p, a);
      p := p.(location := if a.id == 0 then Some(a.location) else p.location);
      p := p.(received := p.received + 1, len := p.len + |a.payload|, slots := p.slots[a.id := Some(a.payload)]);
      packets := packets[a.key := p];
      return Some(p.received == p.count);
    }

    method StoreFragment(a: Arrival) returns (reply: Reply)
      requires Opened(View(), a.key, a.count) && a.id < a.count
      requires packets[a.key].slots[a.id].None? && packets[a.key].len + |a.payload| <= MAX_PACKET_BYTES
      modifies this
      ensures var c1 := old(View());
              var q := WithFragment(c1.packets[a.key], a);
              && (!AllPresent(q.slots) ==> View() == c1.(packets := c1.packets[a.key := q]) && reply == Ok(None))
              && (AllPresent(q.slots) ==>
                    && View() == Pop(c1, a.key) && q.location.Some?
                    && reply == Ok(Some(Prepared(q.location.value, Joined(q.slots)))))
    {
      hide Opened, PacketShape, PacketOk, WithFragment, Filled;
      ghost var c1 := View();
      OpenedEntry(c1, a.key, a.count);
      FragmentShape(c1.packets[a.key], a);
      var complete := AddFragment(a);
      if complete.None? {
        return Err(CacheLost);
      }
      if !complete.value {
        return Ok(None);
      }
      var done := Remove(a.key);
      assert View() == Pop(c1, a.key);
      if done.None? {
        return Err(CacheLost);
      }
      if done.value.location.None? {
        return Err(MissingAddress);
      }
      var payload := JoinSlots(done.value.slots);
      if payload.None? {
        return Err(MissingFragment);
      }
      return Ok(Some(Prepared(done.value.location.value, payload.value)));
    }

    method PrepareFragment(a: Arrival) returns (reply: Reply)
      requires CacheOk(View()) && a.count <= 255
      modifies this
      ensures CacheOk(View())
      ensures SlotsFit(old(View()))
      ensures Outcome(View(), reply) == Prepare(old(View()), a)
      ensures reply !in {Err(MissingAddress), Err(CacheLost), Err(MissingFragment)}
    {
      StepOk(View(), Fragment(a));
      if a.count == 0 {
        return Err(EmptyTotal);
      }
      if a.id >= a.count {
        return Err(BadFragmentId);
      }
      if a.count == 1 {
        return Ok(Some(Prepared(a.location, a.payload)));
      }
      reply := ReassembleFragment(a);
    }

    /** Removes the entries of a session, one by one. */
    method RemoveSession(sessionId: nat)
      requires CacheOk(View())
      modifies this
      ensures CacheOk(View())
      ensures View() == DropSession(old(View()), sessionId)
    {
      DropSessionOk(View(), sessionId);
      var keys := set k | k in packets && k.sessionId == sessionId;
      ghost var target := DropSession(View(), sessionId);
      while keys != {}
        invariant keys == set k | k in packets && k.sessionId == sessionId
        invariant Listed(View())
        invariant DropSession(View(), sessionId) == target
        decreases |keys|
      {
        var key :| key in keys;
        PopListed(View(), key);
        PopThenDrop(View(), key, sessionId);
        var _ := Remove(key);
        keys := keys - {key};
      }
      assert forall k :: k in packets ==> k !in keys;
      NothingToDrop(View(), sessionId);
    }
  }

  lemma TouchFront(c: Cache, key: Key)
    requires Listed(c) && c.order != [] && c.order[0] == key
    ensures Touch(c, key) == c
  {
    assert key !in c.order[1..];
    WithoutAbsent(c.order[1..], key);
    assert Without(c.order, key) == c.order[1..];
  }

  /** Looking an entry up before replacing it changes nothing more. */
  lemma TouchTwice(c: Cache, key: Key)
    requires key in c.packets
    ensures forall p: Packet :: Put(Touch(c, key), key, p) == Put(c, key, p)
  {
    WithoutTwice(c.order, key);
    assert Without([key] + Without(c.order, key), key) == Without(c.order, key) by {
      assert ([key] + Without(c.order, key))[1..] == Without(c.order, key);
    }
  }

  lemma {:induction false} WithoutTwice(order: seq<Key>, key: Key)
    ensures Without(Without(order, key), key) == Without(order, key)
  {
    WithoutElems(order, key);
    WithoutAbsent(Without(order, key), key);
  }

  lemma OpenedEntry(c: Cache, key: Key, count: nat)
    requires Opened(c, key, count)
    ensures Listed(c) && c.order != [] && c.order[0] == key && key in c.packets
    ensures PacketShape(c.packets[key]) && c.packets[key].count == count == |c.packets[key].slots|
  {
  }

  lemma {:induction false} SessionWithout(order: seq<Key>, key: Key, sessionId: nat)
    requires key.sessionId == sessionId
    ensures WithoutSession(Without(order, key), sessionId) == WithoutSession(order, sessionId)
  {
    if order != [] {
      SessionWithout(order[1..], key, sessionId);
      if order[0] != key {
        assert ([order[0]] + Without(order[1..], key))[1..] == Without(order[1..], key);
      }
    }
  }

  lemma PopThenDrop(c: Cache, key: Key, sessionId: nat)
    requires key.sessionId == sessionId
    ensures DropSession(Pop(c, key), sessionId) == DropSession(c, sessionId)
  {
    SessionWithout(c.order, key, sessionId);
  }

  lemma NothingToDrop(c: Cache, sessionId: nat)
    requires Listed(c) && forall k :: k in c.packets ==> k.sessionId != sessionId
    ensures DropSession(c, sessionId) == c
  {
    KeepAll(c.order, sessionId);
  }

  lemma {:induction false} KeepAll(order: seq<Key>, sessionId: nat)
    requires forall k :: k in order ==> k.sessionId != sessionId
    ensures WithoutSession(order, sessionId) == order
  {
    if order != [] {
      KeepAll(order[1..], sessionId);
    }
  }
}
