/** Hysteria2 UDP datagrams (src/hysteria2_server.rs): the QUIC variable-length integer of
    section 16 of RFC 9000, the datagram header, and the sender's fragmentation. */
module UdpWire {
  import opened Common
  import opened Slots

  const MAX_ADDRESS_LEN := 2048
  const MAX_PAYLOAD := 65535
  const VARINT_LIMIT := 0x4000_0000_0000_0000

  // ----- variable-length integers

  function Pow256(n: nat): nat {
    if n == 0 then 1 else 256 * Pow256(n - 1)
  }

  /** The `n` low bytes of `v`, most significant first. */
  function BigEndian(v: nat, n: nat): (s: seq<byte>)
    ensures |s| == n
  {
    if n == 0 then [] else BigEndian(v / 256, n - 1) + [(v % 256) as byte]
  }

  /** Shifts the bytes into `acc`, most significant first. */
  function Fold(acc: nat, s: seq<byte>): nat
    decreases |s|
  {
    if s == [] then acc else Fold(acc * 256 + s[0] as int, s[1..])
  }

  /** The two high bits of the first byte give the length. */
  function VarintSize(first: byte): nat {
    match first as int / 64
    case 0 => 1
    case 1 => 2
    case 2 => 4
    case _ => 8
  }

  /** `bytes[0] |= tag << 6`, where the two bits are free. */
  function Tagged(bytes: seq<byte>, tag: nat): seq<byte>
    requires bytes != [] && tag < 4
  {
    [(bytes[0] as int % 64 + tag * 64) as byte] + bytes[1..]
  }

  function EncodeVarint(v: nat): Option<seq<byte>> {
    if v <= 63 then Some([v as byte])
    else if v < 0x4000 then Some(Tagged(BigEndian(v, 2), 1))
    else if v < 0x4000_0000 then Some(Tagged(BigEndian(v, 4), 2))
    else if v < VARINT_LIMIT then Some(Tagged(BigEndian(v, 8), 3))
    else None
  }

  /** The value at the front of `data` and how many bytes it takes. */
  function DecodeVarint(data: seq<byte>): Option<(nat, nat)> {
    if data == [] then None
    else
      var size := VarintSize(data[0]);
      if |data| < size then None
      else Some((Fold(data[0] as int % 64, data[1..size]), size))
  }

  lemma {:induction false} FoldAppend(acc: nat, s: seq<byte>, b: byte)
    ensures Fold(acc, s + [b]) == Fold(acc, s) * 256 + b as int
    decreases |s|
  {
    if s == [] {
      assert s + [b] == [b];
      assert [b][1..] == [];
    } else {
      assert (s + [b])[1..] == s[1..] + [b];
      FoldAppend(acc * 256 + s[0] as int, s[1..], b);
    }
  }

  lemma {:induction false} FoldBigEndian(v: nat, n: nat)
    requires v < Pow256(n)
    ensures Fold(0, BigEndian(v, n)) == v
  {
    if n > 0 {
      FoldBigEndian(v / 256, n - 1);
      FoldAppend(0, BigEndian(v / 256, n - 1), (v % 256) as byte);
    }
  }

  lemma {:induction false} LeadByte(v: nat, n: nat)
    requires 0 < n && v < 64 * Pow256(n - 1)
    ensures BigEndian(v, n)[0] < 64
  {
    if n > 1 {
      LeadByte(v / 256, n - 1);
    } else {
      assert BigEndian(v, 1) == [(v % 256) as byte];
    }
  }

  lemma TaggedRoundTrip(v: nat, n: nat, tag: nat, rest: seq<byte>)
    requires (tag == 1 && n == 2) || (tag == 2 && n == 4) || (tag == 3 && n == 8)
    requires v < 64 * Pow256(n - 1)
    ensures DecodeVarint(Tagged(BigEndian(v, n), tag) + rest) == Some((v, n))
  {
    var bytes := BigEndian(v, n);
    LeadByte(v, n);
    assert Pow256(n) == 256 * Pow256(n - 1);
    FoldBigEndian(v, n);
    assert Fold(0, bytes) == Fold(bytes[0] as int, bytes[1..]);
    var data := Tagged(bytes, tag) + rest;
    assert data[0] as int == bytes[0] as int + tag * 64;
    assert data[0] as int / 64 == tag && data[0] as int % 64 == bytes[0] as int;
    assert data[1..n] == bytes[1..];
  }

  lemma PowersOf256()
    ensures 64 * Pow256(1) == 0x4000 && 64 * Pow256(3) == 0x4000_0000 && 64 * Pow256(7) == VARINT_LIMIT
  {
    assert Pow256(3) == 0x100_0000;
    assert Pow256(5) == 0x100_0000_0000;
  }

  /** Every value below 2^62 decodes to itself from the front of any data; larger ones are refused. */
  lemma VarintRoundTrip(v: nat, rest: seq<byte>)
    ensures EncodeVarint(v).Some? <==> v < VARINT_LIMIT
    ensures v < VARINT_LIMIT ==>
      var bytes := EncodeVarint(v).value;
      DecodeVarint(bytes + rest) == Some((v, |bytes|))
  {
    PowersOf256();
    if v <= 63 {
      var data := [v as byte] + rest;
      assert data[0] as int / 64 == 0 && data[0] as int % 64 == v;
      assert data[1..1] == [];
    } else if v < 0x4000 {
      TaggedRoundTrip(v, 2, 1, rest);
    } else if v < 0x4000_0000 {
      TaggedRoundTrip(v, 4, 2, rest);
    } else if v < VARINT_LIMIT {
      TaggedRoundTrip(v, 8, 3, rest);
    }
  }

  /** The base-256 digit of `v` in place `i`, the lowest place first. */
  function Place(v: nat, i: nat): nat {
    if i == 0 then v % 256 else Place(v / 256, i - 1)
  }

  lemma {:induction false} BigEndianAt(v: nat, n: nat, i: nat)
    requires i < n
    ensures BigEndian(v, n)[i] as int == Place(v, n - 1 - i)
  {
    if i < n - 1 {
      BigEndianAt(v / 256, n - 1, i);
    }
  }

  /** The sizes the two high bits stand for. */
  predicate SizeOf(n: nat, tag: nat) {
    (n == 1 && tag == 0) || (n == 2 && tag == 1) || (n == 4 && tag == 2) || (n == 8 && tag == 3)
  }

  lemma TaggedLayout(v: nat, n: nat, tag: nat)
    requires SizeOf(n, tag) && n > 1 && v < 64 * Pow256(n - 1)
    ensures var bytes := Tagged(BigEndian(v, n), tag);
            && |bytes| == n && bytes[0] as int == 64 * tag + Place(v, n - 1)
            && forall i :: 0 < i < n ==> bytes[i] as int == Place(v, n - 1 - i)
  {
    hide BigEndian, Place;
    LeadByte(v, n);
    forall i | 0 <= i < n ensures BigEndian(v, n)[i] as int == Place(v, n - 1 - i) {
      BigEndianAt(v, n, i);
    }
  }

  /** The form of section 16 of RFC 9000: the shortest of the four sizes that holds the value in all
      but two of its bits, those two naming the size, most significant byte first. */
  lemma VarintLayout(v: nat)
    requires v < VARINT_LIMIT
    ensures EncodeVarint(v).Some?
    ensures var bytes := EncodeVarint(v).value;
            var n := |bytes|;
            exists tag: nat :: SizeOf(n, tag)
              && v < 64 * Pow256(n - 1) && (n > 1 ==> 64 * Pow256(n / 2 - 1) <= v)
              && bytes[0] as int == 64 * tag + Place(v, n - 1)
              && forall i :: 0 < i < n ==> bytes[i] as int == Place(v, n - 1 - i)
  {
    hide Tagged, BigEndian;
    PowersOf256();
    assert SizeOf(1, 0) && SizeOf(2, 1) && SizeOf(4, 2) && SizeOf(8, 3);
    if 63 < v < 0x4000 {
      TaggedLayout(v, 2, 1);
    } else if 0x4000 <= v < 0x4000_0000 {
      TaggedLayout(v, 4, 2);
    } else if 0x4000_0000 <= v {
      TaggedLayout(v, 8, 3);
    }
  }

  // ----- datagrams

  datatype Datagram = Datagram(sessionId: nat, packetId: nat, fragmentId: nat, fragmentCount: nat,
    address: seq<byte>, payload: seq<byte>)

  /** What the receiver reads from a datagram; None when it is ignored. */
  function ParseDatagram(data: seq<byte>): Option<Datagram> {
    if |data| < 9 then None
    else
      match DecodeVarint(data[8..])
      case None => None
      case Some((addressLen, size)) =>
        var next := 8 + size;
        if addressLen == 0 || addressLen > MAX_ADDRESS_LEN || |data| < next + addressLen then None
        else Some(Datagram(Fold(0, data[0..4]), Fold(0, data[4..6]), data[6] as int, data[7] as int,
          data[next..next + addressLen], data[next + addressLen..]))
  }

  /** The fields fit their widths and the address has a length the receiver accepts. */
  predicate Sendable(d: Datagram) {
    && d.sessionId < 0x1_0000_0000 && d.packetId < 0x1_0000
    && d.fragmentId < 256 && d.fragmentCount < 256
    && 0 < |d.address| <= MAX_ADDRESS_LEN
  }

  function AddressLenBytes(address: seq<byte>): seq<byte>
    requires |address| <= MAX_ADDRESS_LEN
  {
    EncodeVarint(|address|).value
  }

  function Header(d: Datagram): seq<byte>
    requires Sendable(d)
  {
    BigEndian(d.sessionId, 4) + BigEndian(d.packetId, 2) + [d.fragmentId as byte, d.fragmentCount as byte]
    + AddressLenBytes(d.address) + d.address
  }

  function Overhead(address: seq<byte>): nat
    requires |address| <= MAX_ADDRESS_LEN
  {
    4 + 2 + 1 + 1 + |AddressLenBytes(address)| + |address|
  }

  lemma SmallPowers()
    ensures Pow256(2) == 0x1_0000 && Pow256(4) == 0x1_0000_0000
  {
  }

  /** Where each field of the header is: numbers most significant byte first, then the length of the
      address and the address. */
  lemma HeaderLayout(d: Datagram)
    requires Sendable(d)
    ensures var h := Header(d);
            && |h| > 8
            && (forall i :: 0 <= i < 4 ==> h[i] as int == Place(d.sessionId, 3 - i))
            && h[4] as int == Place(d.packetId, 1) && h[5] as int == Place(d.packetId, 0)
            && h[6] as int == d.fragmentId && h[7] as int == d.fragmentCount
            && h[8..] == EncodeVarint(|d.address|).value + d.address
  {
    hide BigEndian, Place, EncodeVarint;
    forall i | 0 <= i < 4 ensures BigEndian(d.sessionId, 4)[i] as int == Place(d.sessionId, 3 - i) {
      BigEndianAt(d.sessionId, 4, i);
    }
    BigEndianAt(d.packetId, 2, 0);
    BigEndianAt(d.packetId, 2, 1);
  }

  /** Whatever is sent is read back field by field. */
  lemma DatagramRoundTrip(d: Datagram)
    requires Sendable(d)
    ensures |Header(d)| == Overhead(d.address)
    ensures ParseDatagram(Header(d) + d.payload) == Some(d)
  {
    hide BigEndian, Fold, EncodeVarint, DecodeVarint;
    var data := Header(d) + d.payload;
    var len := AddressLenBytes(d.address);
    VarintRoundTrip(|d.address|, d.address + d.payload);
    SmallPowers();
    FoldBigEndian(d.sessionId, 4);
    FoldBigEndian(d.packetId, 2);
    assert data[0..4] == BigEndian(d.sessionId, 4);
    assert data[4..6] == BigEndian(d.packetId, 2);
    assert data[8..] == len + (d.address + d.payload);
    LenNotEmpty(d.address);
    var next := 8 + |len|;
    assert data[next..next + |d.address|] == d.address;
    assert data[next + |d.address|..] == d.payload;
  }

  lemma LenNotEmpty(address: seq<byte>)
    requires |address| <= MAX_ADDRESS_LEN
    ensures 1 <= |AddressLenBytes(address)| <= 2
  {
  }

  // ----- the sender

  datatype SendError = DatagramTooSmall | TooManyFragments

  function DivCeil(a: nat, b: nat): nat
    requires b > 0
  {
    (a + b - 1) / b
  }

  /** Where fragment `i` starts, in pieces of `size` bytes. */
  function Start(size: nat, i: nat): nat {
    i * size
  }

  function Fragment(payload: seq<byte>, size: nat, i: nat): seq<byte> {
    var start := Start(size, i);
    if start >= |payload| then [] else payload[start..Min(start + size, |payload|)]
  }

  function Fragments(payload: seq<byte>, size: nat, n: nat): seq<seq<byte>> {
    seq(n, i requires 0 <= i < n => Fragment(payload, size, i))
  }

  lemma {:induction false} FragmentsPrefix(payload: seq<byte>, size: nat, n: nat)
    ensures Concat(Fragments(payload, size, n)) == payload[..Min(Start(size, n), |payload|)]
  {
    if n == 0 {
      assert Fragments(payload, size, 0) == [];
    } else {
      FragmentsPrefix(payload, size, n - 1);
      var parts := Fragments(payload, size, n);
      assert parts == Fragments(payload, size, n - 1) + [Fragment(payload, size, n - 1)];
      ConcatAppend(Fragments(payload, size, n - 1), Fragment(payload, size, n - 1));
      NextStart(size, n - 1);
      hide Start;
      var start := Start(size, n - 1);
      if start < |payload| {
        assert payload[..start] + payload[start..Min(start + size, |payload|)] ==
          payload[..Min(start + size, |payload|)];
      }
    }
  }

  lemma NextStart(size: nat, i: nat)
    ensures Start(size, i + 1) == Start(size, i) + size
  {
    MulNext(i, size);
  }

  /** Rounding up leaves nothing out and no fragment empty. */
  lemma CeilCovers(len: nat, size: nat, i: nat)
    requires size > 0
    ensures DivCeil(len, size) * size >= len
    ensures i < DivCeil(len, size) ==> Start(size, i) < len
  {
    var n := DivCeil(len, size);
    var r := (len + size - 1) % size;
    assert n * size + r == len + size - 1;
    if i < n {
      MulMono(i, n - 1, size);
      MulNext(n - 1, size);
    }
  }

  /** How many datagrams a payload takes, with `room` payload bytes in each. */
  function FragmentCount(len: nat, room: nat): nat
    requires room > 0
  {
    if len <= room then 1 else DivCeil(len, room)
  }

  /** One datagram of a packet. */
  method BuildDatagram(sessionId: nat, packetId: nat, id: nat, n: nat, address: seq<byte>, piece: seq<byte>)
    returns (datagram: seq<byte>)
    requires Sendable(Datagram(sessionId, packetId, id, n, address, piece))
    ensures |datagram| == Overhead(address) + |piece|
    ensures ParseDatagram(datagram) == Some(Datagram(sessionId, packetId, id, n, address, piece))
  {
    hide BigEndian, EncodeVarint, ParseDatagram;
    ghost var d := Datagram(sessionId, packetId, id, n, address, piece);
    DatagramRoundTrip(d);
    datagram := BigEndian(sessionId, 4);
    datagram := datagram + BigEndian(packetId, 2);
    datagram := datagram + [id as byte, n as byte];
    datagram := datagram + AddressLenBytes(address);
    datagram := datagram + address;
    assert datagram == Header(d);
    datagram := datagram + piece;
  }

  /** The datagrams of one outgoing packet: each fits, and each reads back as its fragment. */
  method SendPacket(sessionId: nat, packetId: nat, address: seq<byte>, payload: seq<byte>, maxSize: nat)
    returns (r: Result<seq<seq<byte>>, SendError>)
    requires sessionId < 0x1_0000_0000 && packetId < 0x1_0000
    requires 0 < |address| <= MAX_ADDRESS_LEN && 0 < |payload| <= MAX_PAYLOAD
    ensures r == Err(DatagramTooSmall) <==> maxSize <= Overhead(address)
    ensures r == Err(TooManyFragments) <==>
      maxSize > Overhead(address) && FragmentCount(|payload|, maxSize - Overhead(address)) > 255
    ensures r.Ok? ==>
      var room := maxSize - Overhead(address);
      var n := FragmentCount(|payload|, room);
      && |r.value| == n
      && forall i :: 0 <= i < n ==>
           && |r.value[i]| <= maxSize
           && ParseDatagram(r.value[i]) ==
                Some(Datagram(sessionId, packetId, i, n, address, Fragment(payload, room, i)))
  {
    hide ParseDatagram, EncodeVarint, Start, DivCeil;
    var overhead := 4 + 2 + 1 + 1 + |AddressLenBytes(address)| + |address|;
    if maxSize <= overhead {
      return Err(DatagramTooSmall);
    }
    var room := maxSize - overhead;
    if overhead + |payload| <= maxSize {
      var datagram := BuildDatagram(sessionId, packetId, 0, 1, address, payload);
      FirstFragment(payload, room);
      return Ok([datagram]);
    }
    var n := DivCeil(|payload|, room);
    if n > 255 {
      return Err(TooManyFragments);
    }
    var datagrams := [];
    var id := 0;
    while id < n
      invariant 0 <= id <= n
      invariant |datagrams| == id
      invariant forall i :: 0 <= i < id ==>
        && |datagrams[i]| <= maxSize
        && ParseDatagram(datagrams[i]) == Some(Datagram(sessionId, packetId, i, n, address, Fragment(payload, room, i)))
    {
      CeilCovers(|payload|, room, id);
      var start := Start(room, id);
      var end := Min(start + room, |payload|);
      var datagram := BuildDatagram(sessionId, packetId, id, n, address, payload[start..end]);
      datagrams := datagrams + [datagram];
      id := id + 1;
    }
    return Ok(datagrams);
  }

  lemma FirstFragment(payload: seq<byte>, room: nat)
    requires |payload| <= room
    ensures Fragment(payload, room, 0) == payload
  {
  }

  /** The fragments of a packet put together are the packet. */
  lemma FragmentsConcat(payload: seq<byte>, room: nat)
    requires room > 0
    ensures Concat(Fragments(payload, room, FragmentCount(|payload|, room))) == payload
  {
    var n := FragmentCount(|payload|, room);
    FragmentsPrefix(payload, room, n);
    CeilCovers(|payload|, room, 0);
  }
}
