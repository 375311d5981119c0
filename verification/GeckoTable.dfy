/** The Gecko reassembly table (src/hysteria2_obfs.rs, GeckoState).

    `Table` is the abstract state: live entries, the lazy eviction queue and the time of the
    last sweep.  `Accept` says what one chunk arrival does to it.  The class GeckoState keeps,
    as the program does, an incremental per-source counter beside it, and is proved to
    implement `Accept`; `RunOk` proves the invariant of every run. */
module GeckoTable {
  import opened Common
  import opened GeckoWire
  import opened Slots

  /** Time is in milliseconds. */
  const REASSEMBLY_TTL := 8000
  const MAX_REASSEMBLY := 4096
  const ORDER_COMPACT_LEN := MAX_REASSEMBLY * 2
  const MAX_PER_SOURCE := 8

  datatype SocketAddr = SocketAddr(ip: nat, port: nat)

  datatype Key = Key(addr: SocketAddr, msgId: byte)

  datatype Entry = Entry(chunks: seq<Option<seq<byte>>>, received: nat, total: nat, deadline: nat)

  datatype Table = Table(entries: map<Key, Entry>, order: seq<Key>, lastSweep: nat)

  datatype Outcome = Outcome(table: Table, packet: Option<seq<byte>>)

  // ----- abstract operations

  /** Live entries that came from `addr`. */
  function FromSource(live: set<Key>, addr: SocketAddr): set<Key> {
    set k | k in live && k.addr == addr
  }

  function SourceCount(live: set<Key>, addr: SocketAddr): nat {
    |FromSource(live, addr)|
  }

  /** The queue without the keys that are no longer live; duplicates of live keys stay. */
  function Compact(order: seq<Key>, live: set<Key>): seq<Key> {
    if order == [] then []
    else if order[0] in live then [order[0]] + Compact(order[1..], live)
    else Compact(order[1..], live)
  }

  /** How many queued keys come before the first live one. */
  function StalePrefix(order: seq<Key>, live: set<Key>): (n: nat)
    ensures n <= |order|
    ensures forall i :: 0 <= i < n ==> order[i] !in live
    ensures n < |order| ==> order[n] in live
  {
    if order == [] || order[0] in live then 0 else 1 + StalePrefix(order[1..], live)
  }

  /** Drop the first live entry of the queue, and every stale key queued before it. */
  function Evict(t: Table): Table {
    var n := StalePrefix(t.order, t.entries.Keys);
    if n == |t.order| then t.(order := [])
    else t.(entries := t.entries - {t.order[n]}, order := t.order[n + 1..])
  }

  function Unexpired(entries: map<Key, Entry>, now: nat): map<Key, Entry> {
    map k | k in entries && now <= entries[k].deadline :: entries[k]
  }

  function Sweep(t: Table, now: nat): Table {
    var kept := Unexpired(t.entries, now);
    Table(kept, Compact(t.order, kept.Keys), now)
  }

  function SweepIfDue(t: Table, now: nat): Table {
    if now - t.lastSweep >= REASSEMBLY_TTL / 2 then Sweep(t, now) else t
  }

  function EmptyEntry(total: nat, deadline: nat): Entry {
    Entry(seq(total, _ => None), 0, total, deadline)
  }

  /** Room for one more: evict from a full table, then compact a long queue. */
  function MakeRoom(t: Table): Table {
    var t1 := if |t.entries| >= MAX_REASSEMBLY then Evict(t) else t;
    if |t1.order| >= ORDER_COMPACT_LEN then t1.(order := Compact(t1.order, t1.entries.Keys)) else t1
  }

  /** Queue an empty entry for `key`. */
  function Enter(t: Table, key: Key, total: nat, now: nat): Table {
    t.(entries := t.entries[key := EmptyEntry(total, now + REASSEMBLY_TTL)], order := t.order + [key])
  }

  function Admit(t: Table, key: Key, total: nat, now: nat): Table {
    Enter(MakeRoom(t), key, total, now)
  }

  /** Store a chunk in the live entry of `key`; the last missing chunk completes the packet. */
  function Store(t: Table, key: Key, chunk: Chunk): Outcome
    requires key in t.entries
  {
    var e := t.entries[key];
    if e.total != chunk.total || chunk.index >= |e.chunks| || e.chunks[chunk.index].Some? then
      Outcome(t, None)
    else
      var chunks := e.chunks[chunk.index := Some(chunk.payload)];
      if AllPresent(chunks) then
        Outcome(t.(entries := t.entries - {key}), Some(Joined(chunks)))
      else
        Outcome(t.(entries := t.entries[key := e.(chunks := chunks, received := e.received + 1)]), None)
  }

  /** One chunk arrival. */
  function Accept(t: Table, now: nat, addr: SocketAddr, chunk: Chunk): Outcome {
    var t0 := SweepIfDue(t, now);
    var key := Key(addr, chunk.msgId);
    if key in t0.entries then Store(t0, key, chunk)
    else if SourceCount(t0.entries.Keys, addr) >= MAX_PER_SOURCE then Outcome(t0, None)
    else Store(Admit(t0, key, chunk.total, now), key, chunk)
  }

  // ----- the invariant

  /** An entry is never empty, never complete, and its counter counts its filled slots. */
  predicate EntryOk(e: Entry) {
    && MIN_CHUNKS <= e.total <= MAX_CHUNKS
    && |e.chunks| == e.total
    && e.received == Filled(e.chunks)
    && 1 <= e.received < e.total
  }

  ghost predicate SourcesOk(live: set<Key>) {
    forall a :: SourceCount(live, a) <= MAX_PER_SOURCE
  }

  /** Copies in the queue beyond the first of each key. */
  function Excess(order: seq<Key>): int {
    |order| - |Elems(order)|
  }

  ghost predicate QueueOk(order: seq<Key>) {
    && Excess(order) < ORDER_COMPACT_LEN
    && |order| < ORDER_COMPACT_LEN + MAX_REASSEMBLY
  }

  ghost predicate TableOk(t: Table) {
    && |t.entries| <= MAX_REASSEMBLY
    && SourcesOk(t.entries.Keys)
    && t.entries.Keys <= Elems(t.order)
    && (forall k :: k in t.entries ==> EntryOk(t.entries[k]))
    && QueueOk(t.order)
  }

  // ----- queue lemmas

  lemma {:induction false} CompactElems(order: seq<Key>, live: set<Key>)
    ensures Elems(Compact(order, live)) == Elems(order) * live
    ensures |Compact(order, live)| <= |order|
  {
    if order != [] {
      CompactElems(order[1..], live);
      assert order == [order[0]] + order[1..];
      assert Elems(order) == {order[0]} + Elems(order[1..]);
      var c := Compact(order[1..], live);
      assert Elems([order[0]] + c) == {order[0]} + Elems(c);
    }
  }

  /** Compaction keeps or drops all copies of a key together, so it never adds excess. */
  lemma {:induction false} CompactExcess(order: seq<Key>, live: set<Key>)
    ensures Excess(Compact(order, live)) <= Excess(order)
  {
    if order != [] {
      var rest := order[1..];
      CompactExcess(rest, live);
      CompactElems(rest, live);
      ElemsTail(order);
      assert Elems(order) == {order[0]} + Elems(rest) by { assert order == [order[0]] + rest; }
      if order[0] in live {
        var c := Compact(rest, live);
        assert Elems([order[0]] + c) == {order[0]} + Elems(c);
        assert order[0] in Elems(rest) <==> order[0] in Elems(c);
        if order[0] in Elems(rest) {
          assert Elems(order) == Elems(rest);
          assert Elems([order[0]] + c) == Elems(c);
        }
      }
    }
  }

  lemma {:induction false} SuffixQueue(order: seq<Key>, n: nat)
    requires n <= |order|
    ensures Excess(order[n..]) <= Excess(order)
  {
    if n > 0 {
      ElemsTail(order);
      SuffixQueue(order[1..], n - 1);
      assert order[1..][n - 1..] == order[n..];
    } else {
      assert order[0..] == order;
    }
  }

  lemma DropFromSource(live: set<Key>, key: Key, addr: SocketAddr)
    requires key in live
    ensures SourceCount(live - {key}, addr) == SourceCount(live, addr) - if addr == key.addr then 1 else 0
  {
    if addr == key.addr {
      assert FromSource(live, addr) == FromSource(live - {key}, addr) + {key};
    } else {
      assert FromSource(live, addr) == FromSource(live - {key}, addr);
    }
  }

  lemma InsertFromSource(live: set<Key>, key: Key, addr: SocketAddr)
    requires key !in live
    ensures SourceCount(live + {key}, addr) == SourceCount(live, addr) + if addr == key.addr then 1 else 0
  {
    if addr == key.addr {
      assert FromSource(live + {key}, addr) == FromSource(live, addr) + {key};
    } else {
      assert FromSource(live + {key}, addr) == FromSource(live, addr);
    }
  }

  lemma SourcesShrink(live: set<Key>, fewer: set<Key>)
    requires SourcesOk(live) && fewer <= live
    ensures SourcesOk(fewer)
    ensures forall a :: SourceCount(fewer, a) <= SourceCount(live, a)
  {
    forall a ensures SourceCount(fewer, a) <= SourceCount(live, a) {
      SubsetCard(FromSource(fewer, a), FromSource(live, a));
    }
  }

  /** Evicting from a table whose live keys are all queued removes exactly one entry: the
      first live key of the queue. */
  lemma EvictRemovesOne(t: Table)
    requires t.entries.Keys <= Elems(t.order) && t.entries.Keys != {}
    ensures var n := StalePrefix(t.order, t.entries.Keys);
            && n < |t.order|
            && t.order[n] in t.entries
            && (forall i :: 0 <= i < n ==> t.order[i] !in t.entries)
            && Evict(t) == t.(entries := t.entries - {t.order[n]}, order := t.order[n + 1..])
            && |Evict(t).entries| == |t.entries| - 1
  {
    var n := StalePrefix(t.order, t.entries.Keys);
    var k :| k in t.entries.Keys;
    assert k in t.order;
    assert t.entries.Keys == (t.entries - {t.order[n]}).Keys + {t.order[n]};
  }

  // ----- what every arrival keeps

  /** The invariant, except that the entry of `key` may still be empty. */
  ghost predicate AlmostOk(t: Table, key: Key) {
    && key in t.entries
    && |t.entries| <= MAX_REASSEMBLY
    && SourcesOk(t.entries.Keys)
    && t.entries.Keys <= Elems(t.order)
    && (forall k :: k in t.entries && k != key ==> EntryOk(t.entries[k]))
    && (EntryOk(t.entries[key]) || exists n, d :: MIN_CHUNKS <= n <= MAX_CHUNKS && t.entries[key] == EmptyEntry(n, d))
    && QueueOk(t.order)
  }

  lemma LiveStayQueued(t: Table, n: nat)
    requires n < |t.order| && t.entries.Keys <= Elems(t.order)
    requires forall i :: 0 <= i < n ==> t.order[i] !in t.entries
    ensures t.entries.Keys - {t.order[n]} <= Elems(t.order[n + 1..])
  {
    forall k | k in t.entries.Keys && k != t.order[n] ensures k in t.order[n + 1..] {
      assert k in t.order;
      var i :| 0 <= i < |t.order| && t.order[i] == k;
      assert t.order[n + 1..][i - n - 1] == k;
    }
  }

  lemma EvictOk(t: Table)
    requires TableOk(t) && |t.entries| == MAX_REASSEMBLY
    ensures TableOk(Evict(t)) && |Evict(t).entries| == MAX_REASSEMBLY - 1
    ensures Evict(t).entries.Keys <= t.entries.Keys
  {
    EvictRemovesOne(t);
    var n := StalePrefix(t.order, t.entries.Keys);
    var victim := t.order[n];
    SuffixQueue(t.order, n + 1);
    SourcesShrink(t.entries.Keys, t.entries.Keys - {victim});
    assert Evict(t).entries.Keys == t.entries.Keys - {victim};
    LiveStayQueued(t, n);
  }

  lemma CompactOk(t: Table)
    requires TableOk(t)
    ensures var c := t.(order := Compact(t.order, t.entries.Keys));
            TableOk(c) && Elems(c.order) == t.entries.Keys
  {
    CompactElems(t.order, t.entries.Keys);
    CompactExcess(t.order, t.entries.Keys);
  }

  lemma SweepOk(t: Table, now: nat)
    requires TableOk(t)
    ensures TableOk(Sweep(t, now))
  {
    var kept := Unexpired(t.entries, now);
    SubsetCard(kept.Keys, t.entries.Keys);
    CompactElems(t.order, kept.Keys);
    CompactExcess(t.order, kept.Keys);
    SourcesShrink(t.entries.Keys, kept.Keys);
  }

  /** After making room: a free slot, no longer queue, and either a queue that is short or one
      that holds exactly the live keys. */
  lemma MakeRoomOk(t: Table)
    requires TableOk(t)
    ensures var r := MakeRoom(t);
            && TableOk(r) && |r.entries| < MAX_REASSEMBLY && r.entries.Keys <= t.entries.Keys
            && (|r.order| < ORDER_COMPACT_LEN || Elems(r.order) == r.entries.Keys)
  {
    var t1 := if |t.entries| >= MAX_REASSEMBLY then Evict(t) else t;
    if |t.entries| >= MAX_REASSEMBLY {
      EvictOk(t);
    }
    if |t1.order| >= ORDER_COMPACT_LEN {
      CompactOk(t1);
    }
  }

  lemma EnterOk(t: Table, key: Key, total: nat, now: nat)
    requires TableOk(t) && key !in t.entries && |t.entries| < MAX_REASSEMBLY
    requires SourceCount(t.entries.Keys, key.addr) < MAX_PER_SOURCE
    requires |t.order| < ORDER_COMPACT_LEN || Elems(t.order) == t.entries.Keys
    requires MIN_CHUNKS <= total <= MAX_CHUNKS
    ensures AlmostOk(Enter(t, key, total, now), key)
  {
    hide EntryOk, SourcesOk, QueueOk, EmptyEntry, SourceCount;
    QueuePush(t, key);
    ElemsAppend(t.order, key);
    SourcesGrow(t.entries.Keys, key);
    var e := EmptyEntry(total, now + REASSEMBLY_TTL);
    assert t.entries[key := e].Keys == t.entries.Keys + {key};
  }

  lemma AdmitOk(t: Table, key: Key, total: nat, now: nat)
    requires TableOk(t) && key !in t.entries
    requires SourceCount(t.entries.Keys, key.addr) < MAX_PER_SOURCE
    requires MIN_CHUNKS <= total <= MAX_CHUNKS
    ensures AlmostOk(Admit(t, key, total, now), key)
    ensures Admit(t, key, total, now).entries[key] == EmptyEntry(total, now + REASSEMBLY_TTL)
  {
    MakeRoomOk(t);
    var r := MakeRoom(t);
    SourcesShrink(t.entries.Keys, r.entries.Keys);
    EnterOk(r, key, total, now);
  }

  lemma SourcesGrow(live: set<Key>, key: Key)
    requires SourcesOk(live) && key !in live && SourceCount(live, key.addr) < MAX_PER_SOURCE
    ensures SourcesOk(live + {key})
  {
    forall a ensures SourceCount(live + {key}, a) <= MAX_PER_SOURCE {
      InsertFromSource(live, key, a);
    }
  }

  /** The queue bound: a push onto a short queue adds at most one to a small length, and a
      push after a compaction adds a key with no other copy. */
  lemma QueuePush(t: Table, key: Key)
    requires QueueOk(t.order) && |t.entries| < MAX_REASSEMBLY && key !in t.entries
    requires |t.order| < ORDER_COMPACT_LEN || Elems(t.order) == t.entries.Keys
    ensures QueueOk(t.order + [key])
  {
    ElemsAppend(t.order, key);
  }

  lemma StoreOk(t: Table, key: Key, chunk: Chunk)
    requires AlmostOk(t, key) && WellFormed(chunk)
    requires !EntryOk(t.entries[key]) ==> t.entries[key].total == chunk.total
    ensures TableOk(Store(t, key, chunk).table)
  {
    hide SourcesOk, QueueOk, Filled;
    var e := t.entries[key];
    if !EntryOk(e) {
      FilledNone(e.chunks);
    }
    if !(e.total != chunk.total || chunk.index >= |e.chunks| || e.chunks[chunk.index].Some?) {
      var chunks := e.chunks[chunk.index := Some(chunk.payload)];
      FilledAt(e.chunks, chunk.index, chunk.payload);
      FilledAll(chunks);
      var updated := e.(chunks := chunks, received := e.received + 1);
      if AllPresent(chunks) {
        SubsetCard((t.entries - {key}).Keys, t.entries.Keys);
        SourcesShrink(t.entries.Keys, (t.entries - {key}).Keys);
      } else {
        assert t.entries[key := updated].Keys == t.entries.Keys;
      }
    }
  }

  lemma AcceptOk(t: Table, now: nat, addr: SocketAddr, chunk: Chunk)
    requires TableOk(t) && WellFormed(chunk)
    ensures TableOk(Accept(t, now, addr, chunk).table)
  {
    SweepOk(t, now);
    var t0 := SweepIfDue(t, now);
    var key := Key(addr, chunk.msgId);
    if key in t0.entries {
      StoreOk(t0, key, chunk);
    } else if SourceCount(t0.entries.Keys, addr) < MAX_PER_SOURCE {
      AdmitOk(t0, key, chunk.total, now);
      StoreOk(Admit(t0, key, chunk.total, now), key, chunk);
    }
  }

  /** A datagram that reached the table: when, from where, and the parsed chunk. */
  datatype Arrival = Arrival(now: nat, addr: SocketAddr, chunk: Chunk)

  function NewTable(now: nat): Table {
    Table(map[], [], now)
  }

  /** The table after a whole run of arrivals. */
  function Run(t: Table, arrivals: seq<Arrival>): Table {
    if arrivals == [] then t
    else
      var a := arrivals[|arrivals| - 1];
      Accept(Run(t, arrivals[..|arrivals| - 1]), a.now, a.addr, a.chunk).table
  }

  /** In every run from a new table, whatever the arrival times, sources and chunks. */
  lemma {:induction false} RunOk(start: nat, arrivals: seq<Arrival>)
    requires forall i :: 0 <= i < |arrivals| ==> WellFormed(arrivals[i].chunk)
    ensures TableOk(Run(NewTable(start), arrivals))
  {
    if arrivals == [] {
      forall a: SocketAddr ensures SourceCount({}, a) == 0 {
        assert FromSource({}, a) == {};
      }
      assert NewTable(start).entries.Keys == {};
    } else {
      var n := |arrivals| - 1;
      RunOk(start, arrivals[..n]);
      var a := arrivals[n];
      AcceptOk(Run(NewTable(start), arrivals[..n]), a.now, a.addr, a.chunk);
    }
  }
}
