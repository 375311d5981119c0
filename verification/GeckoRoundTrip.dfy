/** Sending a long-header packet through Gecko and reassembling it
    (src/hysteria2_obfs.rs, encode_transmit_packets and decode_gecko_segment). */
module GeckoRoundTrip {
  import opened Common
  import opened Salamander
  import opened GeckoWire
  import opened GeckoTable
  import opened Slots

  /** The sender's random draws: how many pieces, the padding and the salt of each. */
  datatype Draws = Draws(chunks: nat, pads: seq<seq<byte>>, salts: seq<seq<byte>>)

  predicate DrawsOk(d: Draws) {
    && MIN_CHUNKS <= d.chunks <= MAX_CHUNKS
    && |d.pads| == |d.salts| == d.chunks
    && (forall i :: 0 <= i < d.chunks ==> |d.pads[i]| < 65536 && |d.salts[i]| == SALT_LEN)
  }

  /** Datagram `i` of the packet `payload`. */
  ghost function Datagram(ks: Keystream, password: seq<byte>, msgId: byte, d: Draws, payload: seq<byte>,
      i: nat): seq<byte>
    requires DrawsOk(d) && i < d.chunks
  {
    Masked(ks, password, d.salts[i], Frame(msgId, i, d.chunks, d.pads[i], Piece(payload, d.chunks, i)))
  }

  /** Long-header packets (first bit set) become the datagrams above; anything else is masked whole. */
  method EncodeTransmit(ks: Keystream, password: seq<byte>, msgId: byte, d: Draws, salt: seq<byte>, payload: seq<byte>)
    returns (packets: seq<seq<byte>>)
    requires DrawsOk(d) && |salt| == SALT_LEN
    ensures payload == [] || !Flagged(payload[0]) ==>
      packets == [Masked(ks, password, salt, payload)]
    ensures payload != [] && Flagged(payload[0]) ==>
      && |packets| == d.chunks
      && forall i :: 0 <= i < d.chunks ==> packets[i] == Datagram(ks, password, msgId, d, payload, i)
  {
    if payload == [] || !Flagged(payload[0]) {
      var packet := EncodePacket(ks, password, salt, payload);
      return [packet];
    }
    var size := |payload| / d.chunks;
    packets := [];
    var index := 0;
    while index < d.chunks
      invariant 0 <= index <= d.chunks
      invariant |packets| == index
      invariant forall i :: 0 <= i < index ==> packets[i] == Datagram(ks, password, msgId, d, payload, i)
    {
      PieceBounds(|payload|, d.chunks, index);
      var start := index * size;
      var end := if index < d.chunks - 1 then start + size else |payload|;
      var piece := payload[start..end];
      assert piece == Piece(payload, d.chunks, index);
      var packet := EncodePacket(ks, password, d.salts[index],
        Frame(msgId, index, d.chunks, d.pads[index], piece));
      packets := packets + [packet];
      index := index + 1;
    }
  }

  /** What the receiver does with one raw datagram. */
  ghost function Receive(ks: Keystream, password: seq<byte>, t: Table, now: nat, addr: SocketAddr,
      raw: seq<byte>): Outcome {
    match Unmasked(ks, password, raw)
    case None => Outcome(t, None)
    case Some(decoded) =>
      if !Flagged(decoded[0]) then Outcome(t, Some(decoded))
      else match ParseChunk(decoded)
        case None => Outcome(t, None)
        case Some(chunk) => Accept(t, now, addr, chunk)
  }

  /** The chunk a raw datagram carries, if any. */
  ghost function ChunkIn(ks: Keystream, password: seq<byte>, raw: seq<byte>): Option<Chunk> {
    match Unmasked(ks, password, raw)
    case None => None
    case Some(decoded) => if !Flagged(decoded[0]) then None else ParseChunk(decoded)
  }

  lemma DatagramCarriesPiece(ks: Keystream, password: seq<byte>, msgId: byte, d: Draws, payload: seq<byte>, i: nat)
    requires DrawsOk(d) && i < d.chunks
    ensures ChunkIn(ks, password, Datagram(ks, password, msgId, d, payload, i))
         == Some(Chunk(msgId, i, d.chunks, Piece(payload, d.chunks, i)))
  {
    var piece := Piece(payload, d.chunks, i);
    var frame := Frame(msgId, i, d.chunks, d.pads[i], piece);
    MaskRoundTrip(ks, password, d.salts[i], frame);
    FrameRoundTrip(msgId, i, d.chunks, d.pads[i], piece);
  }

  // ----- one message among other traffic

  /** Delivery of one of our datagrams, or of somebody else's. */
  datatype Step = Mine(now: nat, index: nat) | Other(now: nat, addr: SocketAddr, raw: seq<byte>)

  /** One message under way: its keys, who sends it, what it is, and when its first datagram arrived. */
  datatype Message = Message(ks: Keystream, password: seq<byte>,
    addr: SocketAddr, msgId: byte, d: Draws, payload: seq<byte>, start: nat)
  {
    function Key(): Key {
      GeckoTable.Key(addr, msgId)
    }

    function PieceChunk(index: nat): Chunk
      requires DrawsOk(d) && index < d.chunks
    {
      Chunk(msgId, index, d.chunks, Piece(payload, d.chunks, index))
    }

    ghost predicate Complete(got: set<nat>) {
      forall i :: 0 <= i < d.chunks ==> i in got
    }

    ghost function Slots(got: set<nat>): seq<Option<seq<byte>>>
      requires DrawsOk(d)
    {
      seq(d.chunks, i requires 0 <= i < d.chunks =>
        if i in got then Some(Piece(payload, d.chunks, i)) else None)
    }

    /** The table holds exactly the pieces `got` of this message. */
    ghost predicate Held(t: Table, got: set<nat>)
      requires DrawsOk(d)
    {
      && Key() in t.entries
      && t.entries[Key()].chunks == Slots(got)
      && t.entries[Key()].total == d.chunks
      && t.entries[Key()].deadline == start + REASSEMBLY_TTL
    }

    /** The table can start this message: it is not under way and its source is below the cap. */
    ghost predicate CanStart(t: Table) {
      TableOk(t) && Key() !in t.entries && SourceCount(t.entries.Keys, addr) < MAX_PER_SOURCE
    }
  }

  /** A step within the TTL.  Other datagrams may even name this message, if they disagree about the
      count or repeat, with whatever content, a piece that is there already. */
  ghost predicate StepOk(m: Message, s: Step, got: set<nat>) {
    && s.now <= m.start + REASSEMBLY_TTL
    && match s
       case Mine(_, index) => index < m.d.chunks
       case Other(_, addr, raw) =>
         var c := ChunkIn(m.ks, m.password, raw);
         c.Some? && Key(addr, c.value.msgId) == m.Key() ==> c.value.total != m.d.chunks || c.value.index in got
  }

  ghost function Take(m: Message, t: Table, s: Step): Outcome
    requires DrawsOk(m.d) && (s.Mine? ==> s.index < m.d.chunks)
  {
    match s
    case Mine(now, index) =>
      Receive(m.ks, m.password, t, now, m.addr, Datagram(m.ks, m.password, m.msgId, m.d, m.payload, index))
    case Other(now, addr, raw) => Receive(m.ks, m.password, t, now, addr, raw)
  }

  ghost predicate StepsOk(m: Message, steps: seq<Step>) {
    && DrawsOk(m.d)
    && steps != [] && steps[0].Mine? && steps[0].now == m.start
    && forall i :: 0 <= i < |steps| ==> StepOk(m, steps[i], Delivered(steps, i))
  }

  /** The table after the first `n` steps. */
  ghost function After(m: Message, t: Table, steps: seq<Step>, n: nat): Table
    requires StepsOk(m, steps) && n <= |steps|
  {
    if n == 0 then t else Take(m, After(m, t, steps, n - 1), steps[n - 1]).table
  }

  /** What the receiver hands to QUIC at step `n`. */
  ghost function Output(m: Message, t: Table, steps: seq<Step>, n: nat): Option<seq<byte>>
    requires StepsOk(m, steps) && n < |steps|
  {
    Take(m, After(m, t, steps, n), steps[n]).packet
  }

  /** The pieces of our message delivered by the first `n` steps. */
  ghost function Delivered(steps: seq<Step>, n: nat): set<nat>
    requires n <= |steps|
  {
    set i | 0 <= i < n && steps[i].Mine? :: steps[i].index
  }

  /** A datagram that carries a chunk of another message, and so may open an entry. */
  ghost predicate MayOpen(m: Message, s: Step) {
    && s.Other? && ChunkIn(m.ks, m.password, s.raw).Some?
    && Key(s.addr, ChunkIn(m.ks, m.password, s.raw).value.msgId) != m.Key()
  }

  /** How many of the first `n` steps are of that kind. */
  ghost function OthersIn(m: Message, steps: seq<Step>, n: nat): nat
    requires n <= |steps|
  {
    if n == 0 then 0 else OthersIn(m, steps, n - 1) + (if MayOpen(m, steps[n - 1]) then 1 else 0)
  }

  lemma {:induction false} OthersGrow(m: Message, steps: seq<Step>, i: nat, n: nat)
    requires i <= n <= |steps|
    ensures OthersIn(m, steps, i) <= OthersIn(m, steps, n)
  {
    hide MayOpen;
    if i < n {
      OthersGrow(m, steps, i, n - 1);
    }
  }

  /** The table has room for the message and every other datagram that may open an entry.  Without
      such datagrams any table will do, also a full one. */
  ghost predicate Roomy(m: Message, t: Table, steps: seq<Step>) {
    var others := OthersIn(m, steps, |steps|);
    others == 0 || |t.entries| + 1 + others <= MAX_REASSEMBLY
  }

  lemma StorePiece(m: Message, t: Table, index: nat, got: set<nat>)
    requires DrawsOk(m.d) && index < m.d.chunks
    requires m.Held(t, got)
    ensures var o := Store(t, m.Key(), m.PieceChunk(index));
            && (if index !in got && m.Complete(got + {index}) then o.packet == Some(m.payload)
                else o.packet.None? && m.Held(o.table, got + {index}))
            && |o.table.entries| <= |t.entries|
  {
    var n := m.d.chunks;
    var slots := m.Slots(got);
    SubsetCard(Store(t, m.Key(), m.PieceChunk(index)).table.entries.Keys, t.entries.Keys);
    if index in got {
      assert slots[index].Some?;
      assert got + {index} == got;
    } else {
      var filled := slots[index := Some(Piece(m.payload, n, index))];
      assert filled == m.Slots(got + {index});
      SlotsPresent(m, got + {index});
      if AllPresent(filled) {
        assert seq(n, i requires 0 <= i < n => filled[i].value) == Pieces(m.payload, n);
        PiecesConcat(m.payload, n);
      }
    }
  }

  lemma SlotsPresent(m: Message, got: set<nat>)
    requires DrawsOk(m.d)
    ensures AllPresent(m.Slots(got)) <==> m.Complete(got)
  {
    var slots := m.Slots(got);
    forall i | 0 <= i < m.d.chunks ensures slots[i].Some? <==> i in got {}
  }

  /** Sweeping within the message's lifetime keeps what is held. */
  lemma SweepKeeps(m: Message, t: Table, now: nat, got: set<nat>)
    requires DrawsOk(m.d) && m.Held(t, got) && now <= m.start + REASSEMBLY_TTL
    ensures m.Held(SweepIfDue(t, now), got)
    ensures |SweepIfDue(t, now).entries| <= |t.entries|
  {
    SubsetCard(Unexpired(t.entries, now).Keys, t.entries.Keys);
  }

  /** Sweeping first does not stop a message from starting. */
  lemma SweepCanStart(m: Message, t: Table)
    requires m.CanStart(t)
    ensures m.CanStart(SweepIfDue(t, m.start)) && |SweepIfDue(t, m.start).entries| <= |t.entries|
  {
    SweepOk(t, m.start);
    var kept := Unexpired(t.entries, m.start).Keys;
    SubsetCard(kept, t.entries.Keys);
    SourcesShrink(t.entries.Keys, kept);
  }

  /** Admitting the message opens an empty entry. */
  lemma StartMessage(m: Message, t: Table)
    requires DrawsOk(m.d) && m.CanStart(t)
    ensures var t1 := Admit(t, m.Key(), m.d.chunks, m.start);
            m.Held(t1, {}) && |t1.entries| <= |t.entries| + 1
  {
    hide TableOk, MakeRoom, EntryOk, SourceCount;
    MakeRoomOk(t);
    var room := MakeRoom(t);
    SubsetCard(room.entries.Keys, t.entries.Keys);
    var e := EmptyEntry(m.d.chunks, m.start + REASSEMBLY_TTL);
    assert e.chunks == m.Slots({});
    assert room.entries[m.Key() := e].Keys == room.entries.Keys + {m.Key()};
  }

  lemma FirstPiece(m: Message, t: Table, index: nat)
    requires DrawsOk(m.d) && index < m.d.chunks && m.CanStart(t)
    ensures var o := Accept(t, m.start, m.addr, m.PieceChunk(index));
            o.packet.None? && m.Held(o.table, {index}) && |o.table.entries| <= |t.entries| + 1
  {
    SweepCanStart(m, t);
    StartMessage(m, SweepIfDue(t, m.start));
    var t1 := Admit(SweepIfDue(t, m.start), m.Key(), m.d.chunks, m.start);
    StorePiece(m, t1, index, {});
    OnePieceIncomplete(m, index);
    assert {} + {index} == {index};
  }

  lemma OnePieceIncomplete(m: Message, index: nat)
    requires DrawsOk(m.d)
    ensures !m.Complete({index})
  {
    var other: nat := if index == 0 then 1 else 0;
    var got: set<nat> := {index};
    assert 0 <= other < m.d.chunks && other !in got;
    assert !m.Complete(got);
  }

  lemma LaterPiece(m: Message, t: Table, now: nat, index: nat, got: set<nat>)
    requires DrawsOk(m.d) && index < m.d.chunks
    requires m.Held(t, got) && now <= m.start + REASSEMBLY_TTL
    ensures var o := Accept(t, now, m.addr, m.PieceChunk(index));
            && (if index !in got && m.Complete(got + {index}) then o.packet == Some(m.payload)
                else o.packet.None? && m.Held(o.table, got + {index}))
            && |o.table.entries| <= |t.entries|
  {
    SweepKeeps(m, t, now, got);
    StorePiece(m, SweepIfDue(t, now), index, got);
  }

  lemma StoreOther(m: Message, t: Table, key: Key, chunk: Chunk, got: set<nat>)
    requires DrawsOk(m.d) && m.Held(t, got)
    requires key in t.entries && key != m.Key()
    ensures m.Held(Store(t, key, chunk).table, got)
    ensures |Store(t, key, chunk).table.entries| <= |t.entries|
  {
    SubsetCard(Store(t, key, chunk).table.entries.Keys, t.entries.Keys);
  }

  /** Somebody else's chunk leaves our entry alone while the table is not full. */
  lemma OtherChunk(m: Message, t: Table, now: nat, addr: SocketAddr, chunk: Chunk, got: set<nat>)
    requires DrawsOk(m.d) && m.Held(t, got) && now <= m.start + REASSEMBLY_TTL
    requires Key(addr, chunk.msgId) != m.Key()
    requires |t.entries| < MAX_REASSEMBLY
    ensures var o := Accept(t, now, addr, chunk);
            m.Held(o.table, got) && |o.table.entries| <= |t.entries| + 1
  {
    SweepKeeps(m, t, now, got);
    var t0 := SweepIfDue(t, now);
    var key := Key(addr, chunk.msgId);
    if key in t0.entries {
      StoreOther(m, t0, key, chunk, got);
    } else if SourceCount(t0.entries.Keys, addr) < MAX_PER_SOURCE {
      var t1 := Admit(t0, key, chunk.total, now);
      assert t1.entries == t0.entries[key := EmptyEntry(chunk.total, now + REASSEMBLY_TTL)];
      StoreOther(m, t1, key, chunk, got);
    }
  }

  /** A chunk that names our message but disagrees about the count, or repeats a piece, is ignored. */
  lemma ForgedChunk(m: Message, t: Table, now: nat, chunk: Chunk, got: set<nat>)
    requires DrawsOk(m.d) && m.Held(t, got) && now <= m.start + REASSEMBLY_TTL
    requires chunk.msgId == m.msgId && (chunk.total != m.d.chunks || chunk.index in got)
    ensures var o := Accept(t, now, m.addr, chunk);
            o.packet.None? && m.Held(o.table, got) && |o.table.entries| <= |t.entries|
  {
    SweepKeeps(m, t, now, got);
    var slots := m.Slots(got);
    assert chunk.index < m.d.chunks && chunk.index in got ==> slots[chunk.index].Some?;
  }

  /** A step after the first, while pieces are missing. */
  lemma LaterStep(m: Message, t: Table, s: Step, got: set<nat>)
    requires DrawsOk(m.d) && StepOk(m, s, got) && m.Held(t, got)
    requires MayOpen(m, s) ==> |t.entries| < MAX_REASSEMBLY
    ensures var o := Take(m, t, s);
            && (s.Mine? && s.index !in got && m.Complete(got + {s.index}) ==> o.packet == Some(m.payload))
            && (s.Mine? && !m.Complete(got + {s.index}) ==> o.packet.None? && m.Held(o.table, got + {s.index}))
            && (s.Other? ==> m.Held(o.table, got))
            && |o.table.entries| <= |t.entries| + (if MayOpen(m, s) then 1 else 0)
  {
    match s
    case Mine(now, index) =>
      DatagramCarriesPiece(m.ks, m.password, m.msgId, m.d, m.payload, index);
      LaterPiece(m, t, now, index, got);
    case Other(now, addr, raw) =>
      var c := ChunkIn(m.ks, m.password, raw);
      if c.Some? && Key(addr, c.value.msgId) == m.Key() {
        ForgedChunk(m, t, now, c.value, got);
      } else if c.Some? {
        OtherChunk(m, t, now, addr, c.value, got);
      }
  }

  lemma FirstStep(m: Message, t: Table, s: Step)
    requires DrawsOk(m.d) && StepOk(m, s, {}) && s.Mine? && s.now == m.start && m.CanStart(t)
    ensures var o := Take(m, t, s);
            o.packet.None? && m.Held(o.table, {s.index}) && |o.table.entries| <= |t.entries| + 1
  {
    DatagramCarriesPiece(m.ks, m.password, m.msgId, m.d, m.payload, s.index);
    FirstPiece(m, t, s.index);
  }

  lemma DeliveredNext(steps: seq<Step>, n: nat)
    requires n < |steps|
    ensures Delivered(steps, n + 1) ==
      if steps[n].Mine? then Delivered(steps, n) + {steps[n].index} else Delivered(steps, n)
  {
  }

  /** While pieces are missing, the table holds exactly the pieces delivered so far. */
  lemma {:induction false} HoldsDelivered(m: Message, t: Table, steps: seq<Step>, n: nat)
    requires StepsOk(m, steps) && 0 < n <= |steps|
    requires m.CanStart(t) && Roomy(m, t, steps)
    requires !m.Complete(Delivered(steps, n))
    ensures m.Held(After(m, t, steps, n), Delivered(steps, n))
    ensures |After(m, t, steps, n).entries| <= |t.entries| + 1 + OthersIn(m, steps, n)
    ensures steps[n - 1].Mine? ==> Output(m, t, steps, n - 1).None?
  {
    hide Take, TableOk;
    var s := steps[n - 1];
    DeliveredNext(steps, n - 1);
    if n == 1 {
      FirstStep(m, t, s);
      assert Delivered(steps, 0) == {};
    } else {
      HoldsDelivered(m, t, steps, n - 1);
      OthersGrow(m, steps, n, |steps|);
      LaterStep(m, After(m, t, steps, n - 1), s, Delivered(steps, n - 1));
    }
  }

  /** The round trip.  However the datagrams of a message are ordered, duplicated and mixed with
      other datagrams, if its last missing piece arrives within the TTL of the first, and the
      table starts without that message, below the per-source cap and with room for the other
      datagrams, if there are any, the receiver returns nothing for the message before that
      last piece, and then exactly the payload. */
  lemma RoundTrip(m: Message, t: Table, steps: seq<Step>)
    requires StepsOk(m, steps)
    requires m.CanStart(t) && Roomy(m, t, steps)
    requires m.Complete(Delivered(steps, |steps|)) && !m.Complete(Delivered(steps, |steps| - 1))
    ensures forall i :: 0 <= i < |steps| - 1 && steps[i].Mine? ==> Output(m, t, steps, i).None?
    ensures Output(m, t, steps, |steps| - 1) == Some(m.payload)
  {
    hide *;
    var last := |steps| - 1;
    MoreThanOne(m, steps);
    forall j | 0 <= j < last && steps[j].Mine?
      ensures Output(m, t, steps, j).None?
    {
      DeliveredGrows(m, steps, j + 1, last);
      HoldsDelivered(m, t, steps, j + 1);
    }
    HoldsDelivered(m, t, steps, last);
    LastStep(m, t, steps);
  }

  lemma DeliveredGrows(m: Message, steps: seq<Step>, i: nat, n: nat)
    requires i <= n <= |steps| && !m.Complete(Delivered(steps, n))
    ensures !m.Complete(Delivered(steps, i))
  {
    assert Delivered(steps, i) <= Delivered(steps, n);
  }

  lemma MoreThanOne(m: Message, steps: seq<Step>)
    requires StepsOk(m, steps) && m.Complete(Delivered(steps, |steps|))
    ensures |steps| > 1
  {
    if |steps| == 1 {
      assert Delivered(steps, 0) == {};
      DeliveredNext(steps, 0);
      OnePieceIncomplete(m, if steps[0].Mine? then steps[0].index else 0);
    }
  }

  lemma LastStep(m: Message, t: Table, steps: seq<Step>)
    requires StepsOk(m, steps)
    requires m.Complete(Delivered(steps, |steps|)) && !m.Complete(Delivered(steps, |steps| - 1))
    requires m.Held(After(m, t, steps, |steps| - 1), Delivered(steps, |steps| - 1))
    ensures Output(m, t, steps, |steps| - 1) == Some(m.payload)
  {
    hide Take, TableOk, After;
    var last := |steps| - 1;
    DeliveredNext(steps, last);
    var got := Delivered(steps, last);
    assert steps[last].Mine? && got + {steps[last].index} != got;
    LaterStep(m, After(m, t, steps, last), steps[last], got);
  }
}
