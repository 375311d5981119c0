/** What holds in every run of the Gecko reassembly table, beyond GeckoTable.RunOk: where a
    reassembled packet comes from, which entry eviction picks, and that the bound on the
    eviction queue is the best possible. */
module GeckoRuns {
  import opened Common
  import opened GeckoWire
  import opened GeckoTable
  import opened Slots

  // ----- expiry

  /** The clock never goes back. */
  ghost predicate TimesAscend(start: nat, arrivals: seq<Arrival>) {
    && (forall i :: 0 <= i < |arrivals| ==> start <= arrivals[i].now)
    && (forall i, j :: 0 <= i < j < |arrivals| ==> arrivals[i].now <= arrivals[j].now)
  }

  /** The last sweep left nothing that was due before it, and nothing is due later than a chunk
      arriving `now` would be. */
  ghost predicate Swept(t: Table, now: nat) {
    && t.lastSweep <= now
    && forall k :: k in t.entries ==> t.lastSweep <= t.entries[k].deadline <= now + REASSEMBLY_TTL
  }

  /** No live entry is overdue by half the TTL. */
  ghost predicate NoneOverdue(t: Table, now: nat) {
    forall k :: k in t.entries ==> now < t.entries[k].deadline + REASSEMBLY_TTL / 2
  }

  lemma SweepLeavesNoneOverdue(t: Table, before: nat, now: nat)
    requires Swept(t, before) && before <= now
    ensures Swept(SweepIfDue(t, now), now) && NoneOverdue(SweepIfDue(t, now), now)
  {
  }

  lemma AcceptSwept(t: Table, before: nat, now: nat, addr: SocketAddr, chunk: Chunk)
    requires Swept(t, before) && before <= now
    ensures var o := Accept(t, now, addr, chunk); Swept(o.table, now) && NoneOverdue(o.table, now)
  {
    hide SweepIfDue, Admit, Store, SourceCount;
    SweepLeavesNoneOverdue(t, before, now);
    var t0 := SweepIfDue(t, now);
    var key := Key(addr, chunk.msgId);
    if key in t0.entries {
      StoreSwept(t0, now, key, chunk);
    } else if SourceCount(t0.entries.Keys, addr) < MAX_PER_SOURCE {
      AdmitSwept(t0, key, chunk.total, now);
      StoreSwept(Admit(t0, key, chunk.total, now), now, key, chunk);
    }
  }

  lemma StoreSwept(t: Table, now: nat, key: Key, chunk: Chunk)
    requires key in t.entries && Swept(t, now) && NoneOverdue(t, now)
    ensures var o := Store(t, key, chunk); Swept(o.table, now) && NoneOverdue(o.table, now)
  {
    hide AllPresent, Joined;
  }

  lemma AdmitSwept(t: Table, key: Key, total: nat, now: nat)
    requires Swept(t, now) && NoneOverdue(t, now)
    ensures var t1 := Admit(t, key, total, now); key in t1.entries && Swept(t1, now) && NoneOverdue(t1, now)
  {
    hide Compact, StalePrefix;
  }

  function LastTime(start: nat, arrivals: seq<Arrival>): nat {
    if arrivals == [] then start else arrivals[|arrivals| - 1].now
  }

  lemma {:induction false} RunSwept(start: nat, arrivals: seq<Arrival>)
    requires TimesAscend(start, arrivals)
    ensures Swept(Run(NewTable(start), arrivals), LastTime(start, arrivals))
    ensures arrivals != [] ==> NoneOverdue(Run(NewTable(start), arrivals), LastTime(start, arrivals))
  {
    hide Accept;
    if arrivals != [] {
      var n := |arrivals| - 1;
      var a := arrivals[n];
      RunSwept(start, arrivals[..n]);
      AcceptSwept(Run(NewTable(start), arrivals[..n]), LastTime(start, arrivals[..n]), a.now, a.addr, a.chunk);
    }
  }

  /** In every run, expired entries go: after an arrival no entry is left that was opened one and a half
      TTL ago, so abandoned messages neither fill the table nor block their source for longer. */
  lemma ExpiredEntriesGo(start: nat, arrivals: seq<Arrival>)
    requires TimesAscend(start, arrivals) && arrivals != []
    ensures var t := Run(NewTable(start), arrivals);
            forall k :: k in t.entries ==>
              arrivals[|arrivals| - 1].now < t.entries[k].deadline + REASSEMBLY_TTL / 2
  {
    RunSwept(start, arrivals);
  }

  // ----- provenance

  /** Arrival `a` carried piece `i` of `total` of the message `key`, with content `v`. */
  predicate Carried(a: Arrival, key: Key, total: nat, i: nat, v: seq<byte>) {
    Key(a.addr, a.chunk.msgId) == key && a.chunk.total == total && a.chunk.index == i && a.chunk.payload == v
  }

  /** It did, at time `since` or later. */
  ghost predicate Arrived(arrivals: seq<Arrival>, key: Key, total: nat, i: nat, v: seq<byte>, since: int) {
    exists j :: 0 <= j < |arrivals| && Carried(arrivals[j], key, total, i, v) && since <= arrivals[j].now
  }

  /** When an entry was opened; looked at only if the clock never goes back. */
  function OpenedAt(e: Entry, clock: bool): int {
    if clock then e.deadline - REASSEMBLY_TTL else 0
  }

  ghost predicate EntryTraced(e: Entry, arrivals: seq<Arrival>, key: Key, clock: bool) {
    forall i :: 0 <= i < |e.chunks| && e.chunks[i].Some? ==>
      Arrived(arrivals, key, e.total, i, e.chunks[i].value, OpenedAt(e, clock))
  }

  ghost predicate Traced(t: Table, arrivals: seq<Arrival>, clock: bool) {
    forall k :: k in t.entries ==> EntryTraced(t.entries[k], arrivals, k, clock)
  }

  /** The packet, if any, returned for the last arrival of a run. */
  function LastPacket(t: Table, arrivals: seq<Arrival>): Option<seq<byte>>
    requires arrivals != []
  {
    var a := arrivals[|arrivals| - 1];
    Accept(Run(t, arrivals[..|arrivals| - 1]), a.now, a.addr, a.chunk).packet
  }

  /** `packet` is the concatenation of `total` pieces of one message, each of which arrived since then. */
  ghost predicate Assembled(packet: seq<byte>, arrivals: seq<Arrival>, key: Key, total: nat, since: int) {
    exists parts: seq<seq<byte>> ::
      && |parts| == total
      && packet == Concat(parts)
      && forall i :: 0 <= i < total ==> Arrived(arrivals, key, total, i, parts[i], since)
  }

  lemma ArrivedEarlier(arrivals: seq<Arrival>, a: Arrival, key: Key, total: nat, i: nat, v: seq<byte>, since: int)
    requires Arrived(arrivals, key, total, i, v, since)
    ensures Arrived(arrivals + [a], key, total, i, v, since)
  {
    var j :| 0 <= j < |arrivals| && Carried(arrivals[j], key, total, i, v) && since <= arrivals[j].now;
    assert (arrivals + [a])[j] == arrivals[j];
  }

  lemma TracedEarlier(t: Table, arrivals: seq<Arrival>, a: Arrival, clock: bool)
    requires Traced(t, arrivals, clock)
    ensures Traced(t, arrivals + [a], clock)
  {
    forall k | k in t.entries ensures EntryTraced(t.entries[k], arrivals + [a], k, clock) {
      var e := t.entries[k];
      forall i | 0 <= i < |e.chunks| && e.chunks[i].Some?
        ensures Arrived(arrivals + [a], k, e.total, i, e.chunks[i].value, OpenedAt(e, clock))
      {
        assert EntryTraced(e, arrivals, k, clock);
        ArrivedEarlier(arrivals, a, k, e.total, i, e.chunks[i].value, OpenedAt(e, clock));
      }
    }
  }

  lemma StoreTraced(t: Table, arrivals: seq<Arrival>, key: Key, chunk: Chunk, clock: bool)
    requires key in t.entries && |t.entries[key].chunks| == t.entries[key].total
    requires Traced(t, arrivals, clock)
    requires Arrived(arrivals, key, chunk.total, chunk.index, chunk.payload, OpenedAt(t.entries[key], clock))
    ensures var o := Store(t, key, chunk);
            && Traced(o.table, arrivals, clock)
            && (o.packet.Some? ==>
                  Assembled(o.packet.value, arrivals, key, chunk.total, OpenedAt(t.entries[key], clock)))
  {
    var e := t.entries[key];
    var since := OpenedAt(e, clock);
    assert EntryTraced(e, arrivals, key, clock);
    if !(e.total != chunk.total || chunk.index >= |e.chunks| || e.chunks[chunk.index].Some?) {
      var chunks := e.chunks[chunk.index := Some(chunk.payload)];
      assert EntryTraced(e.(chunks := chunks, received := e.received + 1), arrivals, key, clock);
      if AllPresent(chunks) {
        var parts := seq(|chunks|, i requires 0 <= i < |chunks| => chunks[i].value);
        assert forall i :: 0 <= i < e.total ==> Arrived(arrivals, key, e.total, i, parts[i], since);
        assert Assembled(Concat(parts), arrivals, key, e.total, since);
      }
    }
  }

  lemma AdmitTraced(t: Table, arrivals: seq<Arrival>, key: Key, total: nat, now: nat, clock: bool)
    requires Traced(t, arrivals, clock)
    ensures Traced(Admit(t, key, total, now), arrivals, clock)
  {
    var room := MakeRoom(t);
    assert forall k :: k in room.entries ==> k in t.entries && room.entries[k] == t.entries[k];
    assert EntryTraced(EmptyEntry(total, now + REASSEMBLY_TTL), arrivals, key, clock);
  }

  lemma SlotsMatchTotal(t: Table, key: Key)
    requires key in t.entries && (TableOk(t) || AlmostOk(t, key))
    ensures |t.entries[key].chunks| == t.entries[key].total
  {
    assert TableOk(t) ==> EntryOk(t.entries[key]);
  }

  /** How far back the pieces of a packet handed out `now` may lie. */
  ghost predicate AssembledBy(packet: seq<byte>, arrivals: seq<Arrival>, key: Key, total: nat, now: nat, clock: bool) {
    exists since: int ::
      && Assembled(packet, arrivals, key, total, since)
      && (clock ==> now < since + REASSEMBLY_TTL + REASSEMBLY_TTL / 2)
  }

  lemma AcceptTraced(t: Table, arrivals: seq<Arrival>, a: Arrival, before: nat, clock: bool)
    requires TableOk(t) && WellFormed(a.chunk) && Traced(t, arrivals, clock)
    requires clock ==> Swept(t, before) && before <= a.now
    ensures var o := Accept(t, a.now, a.addr, a.chunk);
            && Traced(o.table, arrivals + [a], clock)
            && (o.packet.Some? ==>
                  AssembledBy(o.packet.value, arrivals + [a], Key(a.addr, a.chunk.msgId), a.chunk.total, a.now, clock))
  {
    hide TableOk, AlmostOk, Admit, Store, SourceCount, Assembled;
    var key := Key(a.addr, a.chunk.msgId);
    var all := arrivals + [a];
    TracedEarlier(t, arrivals, a, clock);
    SweepOk(t, a.now);
    var t0 := SweepIfDue(t, a.now);
    if clock {
      SweepLeavesNoneOverdue(t, before, a.now);
    }
    assert Traced(t0, all, clock);
    assert Carried(all[|arrivals|], key, a.chunk.total, a.chunk.index, a.chunk.payload);
    if key in t0.entries {
      SlotsMatchTotal(t0, key);
      assert Arrived(all, key, a.chunk.total, a.chunk.index, a.chunk.payload, OpenedAt(t0.entries[key], clock));
      StoreTraced(t0, all, key, a.chunk, clock);
    } else if SourceCount(t0.entries.Keys, a.addr) < MAX_PER_SOURCE {
      AdmitOk(t0, key, a.chunk.total, a.now);
      AdmitTraced(t0, all, key, a.chunk.total, a.now, clock);
      var t1 := Admit(t0, key, a.chunk.total, a.now);
      AdmittedAt(t0, key, a.chunk.total, a.now);
      assert Arrived(all, key, a.chunk.total, a.chunk.index, a.chunk.payload, OpenedAt(t1.entries[key], clock));
      StoreTraced(t1, all, key, a.chunk, clock);
    }
  }

  lemma AdmittedAt(t: Table, key: Key, total: nat, now: nat)
    ensures var t1 := Admit(t, key, total, now); key in t1.entries && t1.entries[key].deadline == now + REASSEMBLY_TTL
  {
  }

  lemma {:induction false} RunTraced(start: nat, arrivals: seq<Arrival>, clock: bool)
    requires forall i :: 0 <= i < |arrivals| ==> WellFormed(arrivals[i].chunk)
    requires clock ==> TimesAscend(start, arrivals)
    ensures Traced(Run(NewTable(start), arrivals), arrivals, clock)
  {
    hide Accept, TableOk, EntryTraced;
    if arrivals != [] {
      var n := |arrivals| - 1;
      RunTraced(start, arrivals[..n], clock);
      RunOk(start, arrivals[..n]);
      if clock {
        RunSwept(start, arrivals[..n]);
      }
      var before := LastTime(start, arrivals[..n]);
      AcceptTraced(Run(NewTable(start), arrivals[..n]), arrivals[..n], arrivals[n], before, clock);
      assert arrivals == arrivals[..n] + [arrivals[n]];
    }
  }

  /** In every run, a packet handed out is made of pieces of a single message: all from the same
      source, with the same message id and count, piece `i` in position `i`, all received; and, if the
      clock never goes back, all within less than one and a half TTL. */
  lemma PacketsNeverMix(start: nat, arrivals: seq<Arrival>, clock: bool)
    requires arrivals != [] && forall i :: 0 <= i < |arrivals| ==> WellFormed(arrivals[i].chunk)
    requires clock ==> TimesAscend(start, arrivals)
    ensures var a := arrivals[|arrivals| - 1];
            var packet := LastPacket(NewTable(start), arrivals);
            packet.Some? ==>
              AssembledBy(packet.value, arrivals, Key(a.addr, a.chunk.msgId), a.chunk.total, a.now, clock)
  {
    hide Accept, AssembledBy, Traced, TableOk;
    var n := |arrivals| - 1;
    RunTraced(start, arrivals[..n], clock);
    RunOk(start, arrivals[..n]);
    if clock {
      RunSwept(start, arrivals[..n]);
    }
    var before := LastTime(start, arrivals[..n]);
    AcceptTraced(Run(NewTable(start), arrivals[..n]), arrivals[..n], arrivals[n], before, clock);
    assert arrivals == arrivals[..n] + [arrivals[n]];
  }

  // ----- eviction order

  /** A live key whose last copy is here expires no later than every live key queued behind it. */
  ghost predicate DueInOrder(order: seq<Key>, entries: map<Key, Entry>) {
    order == [] || (DueFirst(order[0], order[1..], entries) && DueInOrder(order[1..], entries))
  }

  ghost predicate DueFirst(k: Key, rest: seq<Key>, entries: map<Key, Entry>) {
    k in entries && k !in rest ==>
      forall b :: b in rest && b in entries ==> entries[k].deadline <= entries[b].deadline
  }

  /** `fewer` keeps some of the entries of `entries`, with their deadlines. */
  ghost predicate SameDeadlines(fewer: map<Key, Entry>, entries: map<Key, Entry>) {
    forall k :: k in fewer ==> k in entries && fewer[k].deadline == entries[k].deadline
  }

  lemma {:induction false} FewerInOrder(order: seq<Key>, entries: map<Key, Entry>, fewer: map<Key, Entry>)
    requires DueInOrder(order, entries) && SameDeadlines(fewer, entries)
    ensures DueInOrder(order, fewer)
  {
    if order != [] {
      FewerInOrder(order[1..], entries, fewer);
      assert DueFirst(order[0], order[1..], fewer);
    }
  }

  lemma {:induction false} CompactInOrder(order: seq<Key>, entries: map<Key, Entry>)
    requires DueInOrder(order, entries)
    ensures DueInOrder(Compact(order, entries.Keys), entries)
  {
    if order != [] {
      var rest := order[1..];
      CompactInOrder(rest, entries);
      CompactElems(rest, entries.Keys);
      var c := Compact(rest, entries.Keys);
      assert forall b :: b in c <==> b in Elems(c);
      assert forall b :: b in rest <==> b in Elems(rest);
      assert DueFirst(order[0], c, entries);
      assert ([order[0]] + c)[1..] == c;
    }
  }

  lemma {:induction false} SuffixInOrder(order: seq<Key>, entries: map<Key, Entry>, n: nat)
    requires DueInOrder(order, entries) && n <= |order|
    ensures DueInOrder(order[n..], entries)
  {
    if n > 0 {
      SuffixInOrder(order[1..], entries, n - 1);
      assert order[1..][n - 1..] == order[n..];
    } else {
      assert order[0..] == order;
    }
  }

  lemma {:induction false} PushInOrder(order: seq<Key>, entries: map<Key, Entry>, key: Key, e: Entry)
    requires DueInOrder(order, entries) && key !in entries
    requires forall k :: k in entries ==> entries[k].deadline <= e.deadline
    ensures DueInOrder(order + [key], entries[key := e])
  {
    if order == [] {
      assert ([] + [key])[1..] == [];
      assert order + [key] == [key];
    } else {
      var rest := order[1..];
      PushInOrder(rest, entries, key, e);
      assert (order + [key])[1..] == rest + [key];
      assert DueFirst(order[0], rest, entries);
      forall b | b in rest + [key] ensures b in rest || b == key {}
      assert order[0] == key ==> key in rest + [key];
      assert DueFirst(order[0], rest + [key], entries[key := e]);
    }
  }

  /** Queue and deadlines agree, and nothing is due later than a chunk arriving `now` would be. */
  ghost predicate Ordered(t: Table, now: nat) {
    && DueInOrder(t.order, t.entries)
    && forall k :: k in t.entries ==> t.entries[k].deadline <= now + REASSEMBLY_TTL
  }

  lemma SweepOrdered(t: Table, now: nat)
    requires Ordered(t, now)
    ensures Ordered(SweepIfDue(t, now), now)
  {
    var kept := Unexpired(t.entries, now);
    FewerInOrder(t.order, t.entries, kept);
    CompactInOrder(t.order, kept);
  }

  lemma MakeRoomOrdered(t: Table, now: nat)
    requires Ordered(t, now)
    ensures Ordered(MakeRoom(t), now)
  {
    var t1 := if |t.entries| >= MAX_REASSEMBLY then Evict(t) else t;
    var n := StalePrefix(t.order, t.entries.Keys);
    if |t.entries| >= MAX_REASSEMBLY && n < |t.order| {
      SuffixInOrder(t.order, t.entries, n + 1);
      FewerInOrder(t.order[n + 1..], t.entries, t1.entries);
    }
    CompactInOrder(t1.order, t1.entries);
  }

  lemma StoreOrdered(t: Table, now: nat, key: Key, chunk: Chunk)
    requires Ordered(t, now) && key in t.entries
    ensures Ordered(Store(t, key, chunk).table, now)
  {
    FewerInOrder(t.order, t.entries, Store(t, key, chunk).table.entries);
  }

  lemma AcceptOrdered(t: Table, now: nat, addr: SocketAddr, chunk: Chunk)
    requires TableOk(t) && Ordered(t, now)
    ensures Ordered(Accept(t, now, addr, chunk).table, now)
  {
    hide TableOk, Ordered, Store, MakeRoom, SourceCount;
    SweepOrdered(t, now);
    SweepOk(t, now);
    var t0 := SweepIfDue(t, now);
    var key := Key(addr, chunk.msgId);
    if key in t0.entries {
      StoreOrdered(t0, now, key, chunk);
    } else if SourceCount(t0.entries.Keys, addr) < MAX_PER_SOURCE {
      MakeRoomOrdered(t0, now);
      MakeRoomOk(t0);
      EnterOrdered(MakeRoom(t0), key, chunk.total, now);
      StoreOrdered(Admit(t0, key, chunk.total, now), now, key, chunk);
    }
  }

  lemma EnterOrdered(t: Table, key: Key, total: nat, now: nat)
    requires Ordered(t, now) && key !in t.entries
    ensures Ordered(Enter(t, key, total, now), now)
  {
    PushInOrder(t.order, t.entries, key, EmptyEntry(total, now + REASSEMBLY_TTL));
  }

  lemma {:induction false} RunOrdered(start: nat, arrivals: seq<Arrival>)
    requires forall i :: 0 <= i < |arrivals| ==> WellFormed(arrivals[i].chunk)
    requires TimesAscend(start, arrivals)
    ensures Ordered(Run(NewTable(start), arrivals), if arrivals == [] then start else arrivals[|arrivals| - 1].now)
  {
    if arrivals != [] {
      var n := |arrivals| - 1;
      var a := arrivals[n];
      RunOrdered(start, arrivals[..n]);
      RunOk(start, arrivals[..n]);
      var t := Run(NewTable(start), arrivals[..n]);
      assert Ordered(t, a.now);
      AcceptOrdered(t, a.now, a.addr, a.chunk);
    }
  }

  /** Where a key is queued last. */
  function LastCopy(order: seq<Key>, k: Key): (i: nat)
    requires k in order
    ensures i < |order| && order[i] == k && k !in order[i + 1..]
  {
    if order[|order| - 1] == k then |order| - 1
    else
      var front := order[..|order| - 1];
      assert order == front + [order[|order| - 1]];
      var i := LastCopy(front, k);
      assert order[i + 1..] == front[i + 1..] + [order[|order| - 1]];
      i
  }

  /** A live key expires no later than the live keys queued behind its last copy. */
  lemma DueBehind(order: seq<Key>, entries: map<Key, Entry>, p: nat, b: Key)
    requires DueInOrder(order, entries) && p < |order|
    requires order[p] in entries && order[p] !in order[p + 1..] && b in entries && b in order[p + 1..]
    ensures entries[order[p]].deadline <= entries[b].deadline
  {
    SuffixInOrder(order, entries, p);
    assert order[p..][1..] == order[p + 1..];
  }

  /** Of two live keys, the one whose last copy comes first expires no later. */
  lemma DueByLastCopy(order: seq<Key>, entries: map<Key, Entry>, a: Key, b: Key)
    requires DueInOrder(order, entries) && a in entries && b in entries && a in order && b in order
    requires LastCopy(order, a) < LastCopy(order, b)
    ensures entries[a].deadline <= entries[b].deadline
  {
    hide LastCopy;
    var p, q := LastCopy(order, a), LastCopy(order, b);
    assert order[p + 1..][q - p - 1] == b;
    DueBehind(order, entries, p, b);
  }

  /** The entry eviction would pick is the one due first. */
  ghost predicate OldestFirst(t: Table, victim: Key) {
    victim in t.entries && forall k :: k in t.entries ==> t.entries[victim].deadline <= t.entries[k].deadline
  }

  /** Every live key whose last copy lies before the victim's last copy is due when the victim is. */
  ghost predicate NoneOvertaken(t: Table, victim: Key) {
    victim in t.entries && victim in t.order &&
    forall k :: k in t.entries && k in t.order && LastCopy(t.order, k) < LastCopy(t.order, victim) ==>
      t.entries[k].deadline == t.entries[victim].deadline
  }

  /** In every run (the clock never going back), the entry that eviction would pick is the one due
      first if and only if no live key overtaken by a later copy of the victim is due earlier; so it
      is whenever the victim was not queued again. */
  lemma EvictionPicksTheOldest(start: nat, arrivals: seq<Arrival>)
    requires forall i :: 0 <= i < |arrivals| ==> WellFormed(arrivals[i].chunk)
    requires TimesAscend(start, arrivals)
    ensures var t := Run(NewTable(start), arrivals);
            var n := StalePrefix(t.order, t.entries.Keys);
            n < |t.order| ==>
              && (OldestFirst(t, t.order[n]) <==> NoneOvertaken(t, t.order[n]))
              && (t.order[n] !in t.order[n + 1..] ==> OldestFirst(t, t.order[n]))
  {
    hide Run;
    RunOk(start, arrivals);
    RunOrdered(start, arrivals);
    var t := Run(NewTable(start), arrivals);
    var n := StalePrefix(t.order, t.entries.Keys);
    if n < |t.order| {
      OldestExactly(t, n);
    }
  }

  lemma OldestExactly(t: Table, n: nat)
    requires DueInOrder(t.order, t.entries) && t.entries.Keys <= Elems(t.order)
    requires n < |t.order| && t.order[n] in t.entries && forall i :: 0 <= i < n ==> t.order[i] !in t.entries
    ensures OldestFirst(t, t.order[n]) <==> NoneOvertaken(t, t.order[n])
    ensures t.order[n] !in t.order[n + 1..] ==> OldestFirst(t, t.order[n])
  {
    hide LastCopy, DueInOrder;
    var v := t.order[n];
    forall k | k in t.entries
      ensures k in t.order
      ensures LastCopy(t.order, k) < LastCopy(t.order, v) ==> t.entries[k].deadline <= t.entries[v].deadline
      ensures LastCopy(t.order, v) < LastCopy(t.order, k) ==> t.entries[v].deadline <= t.entries[k].deadline
      ensures LastCopy(t.order, k) == LastCopy(t.order, v) ==> k == v
      ensures n <= LastCopy(t.order, k)
    {
      assert k in Elems(t.order);
      if LastCopy(t.order, k) < LastCopy(t.order, v) {
        DueByLastCopy(t.order, t.entries, k, v);
      } else if LastCopy(t.order, v) < LastCopy(t.order, k) {
        DueByLastCopy(t.order, t.entries, v, k);
      }
    }
    var q := LastCopy(t.order, v);
    if q > n {
      assert t.order[n + 1..][q - n - 1] == v;
    }
  }

  // ----- the queue bound is reached

  function KeyOf(i: nat): Key {
    Key(SocketAddr(i, 0), 0)
  }

  /** Half of a two-piece message from source `i`, at time 0. */
  function Half(i: nat, index: nat): Arrival {
    Arrival(0, SocketAddr(i, 0), Chunk(0, index, 2, []))
  }

  /** `n` complete messages under the same key. */
  function Rounds(n: nat): seq<Arrival> {
    if n == 0 then [] else Rounds(n - 1) + [Half(0, 0)] + [Half(0, 1)]
  }

  /** The same key once more, left half done, then `n` other sources left half done. */
  function Worst(n: nat): seq<Arrival> {
    if n == 0 then Rounds(ORDER_COMPACT_LEN - 1) + [Half(0, 0)] else Worst(n - 1) + [Half(n, 0)]
  }

  function Copies(n: nat): seq<Key> {
    seq(n, _ => KeyOf(0))
  }

  const HALF_ENTRY := Entry([Some([]), None], 1, 2, REASSEMBLY_TTL)

  function HalfEntry(now: nat): Entry {
    Entry([Some([]), None], 1, 2, now + REASSEMBLY_TTL)
  }

  /** The first half of a message, before the first sweep is due. */
  lemma OpenHalfAt(t: Table, i: nat, now: nat)
    requires t.lastSweep == 0 && KeyOf(i) !in t.entries && SourceCount(t.entries.Keys, SocketAddr(i, 0)) == 0
    requires now < REASSEMBLY_TTL / 2 && |t.entries| < MAX_REASSEMBLY
    requires |t.order| < ORDER_COMPACT_LEN || Compact(t.order, t.entries.Keys) == t.order
    ensures Accept(t, now, SocketAddr(i, 0), Half(i, 0).chunk).table
         == Table(t.entries[KeyOf(i) := HalfEntry(now)], t.order + [KeyOf(i)], 0)
  {
    assert MakeRoom(t) == t;
    var e := EmptyEntry(2, now + REASSEMBLY_TTL);
    assert e.chunks[0 := Some([])] == [Some([]), None];
    var t1 := Enter(t, KeyOf(i), 2, now);
    var stored := [Some([]), None];
    assert !AllPresent(stored) by { assert stored[1].None?; }
    assert Store(t1, KeyOf(i), Half(i, 0).chunk).table.entries == t.entries[KeyOf(i) := HalfEntry(now)];
  }

  lemma OpenHalf(t: Table, i: nat)
    requires t.lastSweep == 0 && KeyOf(i) !in t.entries && SourceCount(t.entries.Keys, SocketAddr(i, 0)) == 0
    requires |t.entries| < MAX_REASSEMBLY
    requires |t.order| < ORDER_COMPACT_LEN || Compact(t.order, t.entries.Keys) == t.order
    ensures Accept(t, 0, SocketAddr(i, 0), Half(i, 0).chunk).table
         == Table(t.entries[KeyOf(i) := HALF_ENTRY], t.order + [KeyOf(i)], 0)
  {
    OpenHalfAt(t, i, 0);
  }

  /** A key that is queued again behind another one. */
  function Requeued(): seq<Arrival> {
    Rounds(1) + [Half(1, 0).(now := 1)] + [Half(0, 0).(now := 2)]
  }

  /** A run of four chunks after which eviction would pick the younger of two entries: its key is
      still queued from a message completed before the older entry was opened. */
  lemma YoungerPicked()
    ensures var t := Run(NewTable(0), Requeued());
            var n := StalePrefix(t.order, t.entries.Keys);
            && n < |t.order| && t.order[n] == KeyOf(0) && KeyOf(0) in t.entries && KeyOf(1) in t.entries
            && t.entries[KeyOf(1)].deadline < t.entries[KeyOf(0)].deadline
  {
    hide Accept, Run;
    AfterRounds(1);
    var t1 := Run(NewTable(0), Rounds(1));
    RunAppend(NewTable(0), Rounds(1), Half(1, 0).(now := 1));
    assert FromSource(t1.entries.Keys, SocketAddr(1, 0)) == {};
    OpenHalfAt(t1, 1, 1);
    var t2 := Run(NewTable(0), Rounds(1) + [Half(1, 0).(now := 1)]);
    RunAppend(NewTable(0), Rounds(1) + [Half(1, 0).(now := 1)], Half(0, 0).(now := 2));
    assert FromSource(t2.entries.Keys, SocketAddr(0, 0)) == {};
    OpenHalfAt(t2, 0, 2);
    var t := Run(NewTable(0), Requeued());
    assert t.order[0] == KeyOf(0);
  }

  lemma CloseHalf(order: seq<Key>)
    ensures Accept(Table(map[KeyOf(0) := HALF_ENTRY], order, 0), 0, SocketAddr(0, 0), Half(0, 1).chunk).table
         == Table(map[], order, 0)
  {
    assert HALF_ENTRY.chunks[1 := Some([])] == [Some([]), Some([])];
    assert map[KeyOf(0) := HALF_ENTRY] - {KeyOf(0)} == map[];
  }

  lemma {:induction false} RunAppend(t: Table, arrivals: seq<Arrival>, a: Arrival)
    ensures Run(t, arrivals + [a]) == Accept(Run(t, arrivals), a.now, a.addr, a.chunk).table
  {
    assert (arrivals + [a])[..|arrivals|] == arrivals;
  }

  lemma {:induction false} AfterRounds(n: nat)
    requires n < ORDER_COMPACT_LEN
    ensures Run(NewTable(0), Rounds(n)) == Table(map[], Copies(n), 0)
  {
    hide Accept, Run;
    if n > 0 {
      AfterRounds(n - 1);
      RunAppend(NewTable(0), Rounds(n - 1), Half(0, 0));
      RunAppend(NewTable(0), Rounds(n - 1) + [Half(0, 0)], Half(0, 1));
      OpenFirst(n - 1);
      CloseHalf(Copies(n));
    } else {
      assert Run(NewTable(0), []) == NewTable(0) by { RunNothing(NewTable(0)); }
      assert Copies(0) == [];
    }
  }

  lemma RunNothing(t: Table)
    ensures Run(t, []) == t
  {
  }

  lemma OpenFirst(n: nat)
    requires n < ORDER_COMPACT_LEN
    ensures Accept(Table(map[], Copies(n), 0), 0, SocketAddr(0, 0), Half(0, 0).chunk).table
         == Table(map[KeyOf(0) := HALF_ENTRY], Copies(n + 1), 0)
  {
    var t := Table(map[], Copies(n), 0);
    assert t.entries.Keys == {};
    assert FromSource({}, SocketAddr(0, 0)) == {};
    OpenHalf(t, 0);
    assert Copies(n) + [KeyOf(0)] == Copies(n + 1);
    var m: map<Key, Entry> := map[];
    assert m[KeyOf(0) := HALF_ENTRY] == map[KeyOf(0) := HALF_ENTRY];
  }

  /** The live keys and the queue of the worst case. */
  ghost predicate WorstTable(t: Table, n: nat) {
    && t.lastSweep == 0
    && |t.entries| == n + 1
    && (forall k :: k in t.entries ==> exists i :: 0 <= i <= n && k == KeyOf(i))
    && (forall k :: k in t.order ==> k in t.entries)
    && |t.order| == ORDER_COMPACT_LEN + n
  }

  lemma {:induction false} CompactLive(order: seq<Key>, live: set<Key>)
    requires forall k :: k in order ==> k in live
    ensures Compact(order, live) == order
  {
    if order != [] {
      CompactLive(order[1..], live);
    }
  }

  lemma WorstStep(t: Table, n: nat)
    requires WorstTable(t, n) && n + 1 < MAX_REASSEMBLY
    ensures WorstTable(Accept(t, 0, SocketAddr(n + 1, 0), Half(n + 1, 0).chunk).table, n + 1)
  {
    hide Accept;
    var key := KeyOf(n + 1);
    assert key !in t.entries;
    assert FromSource(t.entries.Keys, SocketAddr(n + 1, 0)) == {};
    CompactLive(t.order, t.entries.Keys);
    OpenHalf(t, n + 1);
    var after := t.entries[key := HALF_ENTRY];
    assert after.Keys == t.entries.Keys + {key};
    forall k | k in after ensures exists i :: 0 <= i <= n + 1 && k == KeyOf(i) {
      assert k == key || k in t.entries;
    }
  }

  lemma {:induction false} AfterWorst(n: nat)
    requires n < MAX_REASSEMBLY
    ensures WorstTable(Run(NewTable(0), Worst(n)), n)
  {
    hide Accept, Run, Rounds;
    if n == 0 {
      AfterRounds(ORDER_COMPACT_LEN - 1);
      RunAppend(NewTable(0), Rounds(ORDER_COMPACT_LEN - 1), Half(0, 0));
      OpenFirst(ORDER_COMPACT_LEN - 1);
    } else {
      AfterWorst(n - 1);
      RunAppend(NewTable(0), Worst(n - 1), Half(n, 0));
      WorstStep(Run(NewTable(0), Worst(n - 1)), n - 1);
    }
  }

  /** The bound of GeckoTable.QueueOk cannot be improved: some run fills the queue to exactly
      one key less than ORDER_COMPACT_LEN + MAX_REASSEMBLY, well above the length at which
      the queue is compacted. */
  lemma QueueBoundIsTight()
    ensures exists arrivals: seq<Arrival> ::
      && (forall i :: 0 <= i < |arrivals| ==> WellFormed(arrivals[i].chunk))
      && |Run(NewTable(0), arrivals).order| == ORDER_COMPACT_LEN + MAX_REASSEMBLY - 1
  {
    hide Run, Worst, Rounds;
    AfterWorst(MAX_REASSEMBLY - 1);
    WorstWellFormed(MAX_REASSEMBLY - 1);
  }

  lemma {:induction false} RoundsWellFormed(n: nat)
    ensures forall i :: 0 <= i < |Rounds(n)| ==> WellFormed(Rounds(n)[i].chunk)
  {
    if n > 0 {
      RoundsWellFormed(n - 1);
    }
  }

  lemma {:induction false} WorstWellFormed(n: nat)
    ensures forall i :: 0 <= i < |Worst(n)| ==> WellFormed(Worst(n)[i].chunk)
  {
    hide Rounds;
    if n > 0 {
      WorstWellFormed(n - 1);
    } else {
      RoundsWellFormed(ORDER_COMPACT_LEN - 1);
    }
  }
}
