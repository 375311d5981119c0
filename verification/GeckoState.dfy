/** The in-place reassembler (src/hysteria2_obfs.rs, GeckoState), proved to implement
    GeckoTable.Accept.  Its per-source counters are maintained one step at a time; `Valid`
    says that they always agree with a recount of the live entries. */
module GeckoImpl {
  import opened Common
  import opened GeckoWire
  import opened GeckoTable
  import opened Slots

  /** A source has a counter exactly when it has live entries, and the counter is their number. */
  ghost predicate CountsMatch(perSource: map<SocketAddr, nat>, live: set<Key>) {
    forall a :: CountMatches(perSource, live, a)
  }

  ghost predicate CountMatches(perSource: map<SocketAddr, nat>, live: set<Key>, a: SocketAddr) {
    && (a in perSource <==> SourceCount(live, a) > 0)
    && (a in perSource ==> perSource[a] == SourceCount(live, a))
  }

  class GeckoState {
    var entries: map<Key, Entry>
    var perSource: map<SocketAddr, nat>
    var order: seq<Key>
    var lastSweep: nat

    ghost function View(): Table
      reads this
    {
      Table(entries, order, lastSweep)
    }

    ghost predicate CountsOk()
      reads this
    {
      CountsMatch(perSource, entries.Keys)
    }

    ghost predicate Valid()
      reads this
    {
      CountsOk() && TableOk(View())
    }

    constructor (now: nat)
      ensures Valid() && View() == NewTable(now)
    {
      entries, perSource, order, lastSweep := map[], map[], [], now;
      new;
      RunOk(now, []);
      assert entries.Keys == {};
      forall a ensures CountMatches(perSource, {}, a) {
        assert FromSource({}, a) == {};
      }
    }

    method DropEntry(key: Key)
      requires CountsOk()
      modifies this`entries, this`perSource
      ensures CountsOk()
      ensures entries == old(entries) - {key}
    {
      if key !in entries {
        return;
      }
      ghost var before := entries.Keys;
      assert CountMatches(perSource, before, key.addr);
      assert key in FromSource(before, key.addr);
      entries := entries - {key};
      if key.addr in perSource {
        var count := perSource[key.addr];
        count := if count == 0 then 0 else count - 1;
        if count == 0 {
          perSource := perSource - {key.addr};
        } else {
          perSource := perSource[key.addr := count];
        }
      }
      assert entries.Keys == before - {key};
      forall a ensures CountMatches(perSource, before - {key}, a) {
        assert CountMatches(old(perSource), before, a);
        DropFromSource(before, key, a);
      }
    }

    method EvictOldest()
      requires CountsOk()
      modifies this`entries, this`perSource, this`order
      ensures CountsOk()
      ensures View() == Evict(old(View()))
    {
      while |order| > 0
        invariant CountsOk() && entries == old(entries) && lastSweep == old(lastSweep)
        invariant |order| <= |old(order)| && order == old(order)[|old(order)| - |order|..]
        invariant StalePrefix(old(order), entries.Keys)
               == |old(order)| - |order| + StalePrefix(order, entries.Keys)
      {
        var key := order[0];
        order := order[1..];
        if key in entries {
          DropEntry(key);
          return;
        }
      }
    }

    method CompactOrder()
      modifies this`order
      ensures order == Compact(old(order), entries.Keys)
    {
      var kept := [];
      var i := 0;
      while i < |order|
        invariant 0 <= i <= |order|
        invariant kept + Compact(order[i..], entries.Keys) == Compact(order, entries.Keys)
      {
        if order[i] in entries {
          kept := kept + [order[i]];
        }
        i := i + 1;
      }
      order := kept;
    }

    /** Drops the expired entries in whatever order the hash map yields them. */
    method SweepExpired(now: nat)
      requires CountsOk()
      modifies this
      ensures CountsOk()
      ensures View() == Sweep(old(View()), now)
    {
      var expired := set k | k in entries && now > entries[k].deadline;
      while expired != {}
        invariant CountsOk() && order == old(order)
        invariant expired == set k | k in entries && now > entries[k].deadline
        invariant Unexpired(entries, now) == Unexpired(old(entries), now)
        decreases |expired|
      {
        var key :| key in expired;
        DropEntry(key);
        expired := expired - {key};
      }
      assert forall k :: k in entries ==> k !in expired;
      assert entries == Unexpired(entries, now);
      CompactOrder();
      lastSweep := now;
    }

    /** One parsed chunk from `addr` at time `now`. */
    method AcceptChunk(now: nat, addr: SocketAddr, chunk: Chunk) returns (packet: Option<seq<byte>>)
      requires Valid() && WellFormed(chunk)
      modifies this
      ensures Valid()
      ensures Outcome(View(), packet) == Accept(old(View()), now, addr, chunk)
    {
      ghost var t := View();
      AcceptOk(t, now, addr, chunk);
      SweepOk(t, now);
      if now >= lastSweep && now - lastSweep >= REASSEMBLY_TTL / 2 {
        SweepExpired(now);
      }
      ghost var t0 := SweepIfDue(t, now);
      var key := Key(addr, chunk.msgId);
      if key !in entries {
        assert CountMatches(perSource, entries.Keys, addr);
        if (if addr in perSource then perSource[addr] else 0) >= MAX_PER_SOURCE {
          return None;
        }
        Insert(now, key, chunk.total);
        AdmitOk(t0, key, chunk.total, now);
      }
      packet := StoreChunk(key, chunk);
    }

    method FreeSlot()
      requires Valid()
      modifies this
      ensures CountsOk() && View() == MakeRoom(old(View()))
      ensures entries.Keys <= old(entries.Keys)
    {
      MakeRoomOk(View());
      if |entries| >= MAX_REASSEMBLY {
        EvictOldest();
      }
      if |order| >= ORDER_COMPACT_LEN {
        CompactOrder();
      }
    }

    method Insert(now: nat, key: Key, total: nat)
      requires Valid() && key !in entries
      requires MIN_CHUNKS <= total <= MAX_CHUNKS
      modifies this
      ensures CountsOk() && View() == Admit(old(View()), key, total, now)
    {
      hide TableOk, MakeRoom, EmptyEntry, SourceCount;
      FreeSlot();
      ghost var before := entries.Keys;
      ghost var counts := perSource;
      entries := entries[key := EmptyEntry(total, now + REASSEMBLY_TTL)];
      order := order + [key];
      perSource := perSource[key.addr := (if key.addr in perSource then perSource[key.addr] else 0) + 1];
      assert entries.Keys == before + {key};
      forall a ensures CountMatches(perSource, before + {key}, a) {
        assert CountMatches(counts, before, a) && CountMatches(counts, before, key.addr);
        InsertFromSource(before, key, a);
      }
    }

    method StoreChunk(key: Key, chunk: Chunk) returns (packet: Option<seq<byte>>)
      requires CountsOk() && AlmostOk(View(), key) && WellFormed(chunk)
      modifies this`entries, this`perSource
      ensures CountsOk()
      ensures Outcome(View(), packet) == Store(old(View()), key, chunk)
    {
      var e := entries[key];
      if e.total != chunk.total || chunk.index >= |e.chunks| || e.chunks[chunk.index].Some? {
        return None;
      }
      var chunks := e.chunks[chunk.index := Some(chunk.payload)];
      FilledAt(e.chunks, chunk.index, chunk.payload);
      FilledAll(chunks);
      if !EntryOk(e) {
        FilledNone(e.chunks);
      }
      entries := entries[key := e.(chunks := chunks, received := e.received + 1)];
      assert entries.Keys == old(entries.Keys);
      if e.received + 1 < e.total {
        return None;
      }
      packet := JoinSlots(chunks);
      if packet.Some? {
        DropEntry(key);
        assert entries == old(entries) - {key};
      }
    }
  }
}
