/** Salamander masking (src/hysteria2_obfs.rs): a packet is an 8-byte salt followed by the
    payload XORed with a 32-byte key derived from the password and the salt.  The key
    derivation (BLAKE2b) is an arbitrary function here, so everything below holds for it. */
module Salamander {
  import opened Common

  const SALT_LEN := 8
  const KEY_LEN := 32

  /** Byte `i` (taken modulo KEY_LEN) of the key for a password and a salt. */
  type Keystream = (seq<byte>, seq<byte>, nat) -> byte

  function Pow2(n: nat): nat {
    if n == 0 then 1 else 2 * Pow2(n - 1)
  }

  function XorBit(a: nat, b: nat): nat {
    if a == b then 0 else 1
  }

  /** Exclusive or of the lowest `bits` bits. */
  function BitXor(a: nat, b: nat, bits: nat): (r: nat)
    ensures r < Pow2(bits)
  {
    if bits == 0 then 0 else XorBit(a % 2, b % 2) + 2 * BitXor(a / 2, b / 2, bits - 1)
  }

  function Xor(a: byte, b: byte): byte {
    Pow2Of8();
    BitXor(a as int, b as int, 8) as byte
  }

  /** Bit `i` of a number, the lowest first. */
  function Bit(n: nat, i: nat): nat {
    if i == 0 then n % 2 else Bit(n / 2, i - 1)
  }

  lemma {:induction false} BitXorBits(a: nat, b: nat, bits: nat, i: nat)
    requires i < bits
    ensures Bit(BitXor(a, b, bits), i) == if Bit(a, i) == Bit(b, i) then 0 else 1
  {
    Halves(XorBit(a % 2, b % 2), BitXor(a / 2, b / 2, bits - 1));
    if i > 0 {
      BitXorBits(a / 2, b / 2, bits - 1, i - 1);
    }
  }

  lemma Pow2Of8()
    ensures Pow2(8) == 256
  {
    assert Pow2(4) == 16;
  }

  /** The packet that carries `payload` under `salt`. */
  ghost function Masked(ks: Keystream, password: seq<byte>, salt: seq<byte>, payload: seq<byte>): seq<byte> {
    salt + seq(|payload|, i requires 0 <= i < |payload| => Xor(payload[i], ks(password, salt, i % KEY_LEN)))
  }

  /** What a receiver reads out of a packet; packets of at most SALT_LEN bytes carry nothing. */
  ghost function Unmasked(ks: Keystream, password: seq<byte>, packet: seq<byte>): Option<seq<byte>> {
    if |packet| <= SALT_LEN then None
    else Some(seq(|packet| - SALT_LEN, i requires 0 <= i < |packet| - SALT_LEN =>
      Xor(packet[SALT_LEN + i], ks(password, packet[..SALT_LEN], i % KEY_LEN))))
  }

  /** A packet is the salt and then, byte by byte and bit by bit, the payload, inverted where the
      repeating key has a one. */
  lemma MaskedBits(ks: Keystream, password: seq<byte>, salt: seq<byte>, payload: seq<byte>, i: nat, j: nat)
    requires |salt| == SALT_LEN && i < |payload| && j < 8
    ensures var packet := Masked(ks, password, salt, payload);
            && |packet| == SALT_LEN + |payload|
            && packet[..SALT_LEN] == salt
            && (Bit(packet[SALT_LEN + i] as int, j) != Bit(payload[i] as int, j)
                <==> Bit(ks(password, salt, i % KEY_LEN) as int, j) == 1)
  {
    var packet, key := Masked(ks, password, salt, payload), ks(password, salt, i % KEY_LEN);
    assert packet[SALT_LEN + i] == Xor(payload[i], key);
    BitXorBits(payload[i] as int, key as int, 8, j);
    BitBinary(payload[i] as int, j);
    BitBinary(key as int, j);
  }

  lemma {:induction false} BitBinary(n: nat, i: nat)
    ensures Bit(n, i) < 2
  {
    if i > 0 {
      BitBinary(n / 2, i - 1);
    }
  }

  lemma XorTwice(x: byte, k: byte)
    ensures Xor(Xor(x, k), k) == x
  {
    Pow2Of8();
    BitXorTwice(x as int, k as int, 8);
  }

  lemma {:induction false} BitXorTwice(a: nat, b: nat, bits: nat)
    requires a < Pow2(bits) && b < Pow2(bits)
    ensures BitXor(BitXor(a, b, bits), b, bits) == a
  {
    if bits > 0 {
      var high := BitXor(a / 2, b / 2, bits - 1);
      var low := XorBit(a % 2, b % 2);
      Halves(low, high);
      BitXorTwice(a / 2, b / 2, bits - 1);
      assert BitXor(low + 2 * high, b, bits) == XorBit(low, b % 2) + 2 * (a / 2);
    }
  }

  lemma Halves(low: nat, high: nat)
    requires low < 2
    ensures (low + 2 * high) / 2 == high && (low + 2 * high) % 2 == low
  {
  }

  /** Unmasking inverts masking for every salt and every non-empty payload; an empty
      payload is a salt-only datagram, which the receiver ignores. */
  lemma MaskRoundTrip(ks: Keystream, password: seq<byte>, salt: seq<byte>, payload: seq<byte>)
    requires |salt| == SALT_LEN
    ensures Unmasked(ks, password, Masked(ks, password, salt, payload))
         == if payload == [] then None else Some(payload)
  {
    var packet := Masked(ks, password, salt, payload);
    if payload != [] {
      assert packet[..SALT_LEN] == salt;
      var out := Unmasked(ks, password, packet).value;
      forall i | 0 <= i < |payload|
        ensures out[i] == payload[i]
      {
        assert packet[SALT_LEN + i] == Xor(payload[i], ks(password, salt, i % KEY_LEN));
        XorTwice(payload[i], ks(password, salt, i % KEY_LEN));
      }
      assert out == payload;
    }
  }

  method EncodePacket(ks: Keystream, password: seq<byte>, salt: seq<byte>, payload: seq<byte>)
    returns (packet: seq<byte>)
    requires |salt| == SALT_LEN
    ensures packet == Masked(ks, password, salt, payload)
  {
    packet := salt;
    var index := 0;
    while index < |payload|
      invariant 0 <= index <= |payload|
      invariant |packet| == SALT_LEN + index
      invariant packet[..SALT_LEN] == salt
      invariant forall i :: 0 <= i < index ==>
        packet[SALT_LEN + i] == Xor(payload[i], ks(password, salt, i % KEY_LEN))
    {
      packet := packet + [Xor(payload[index], ks(password, salt, index % KEY_LEN))];
      index := index + 1;
    }
    assert packet == salt + packet[SALT_LEN..];
  }

  /** Decodes the packet held in `buf[lo..hi]` over itself, moving the payload down to `lo`. */
  method DecodeInPlace(ks: Keystream, password: seq<byte>, buf: array<byte>, lo: nat, hi: nat)
    returns (decoded: Option<nat>)
    requires lo <= hi <= buf.Length
    modifies buf
    ensures decoded.Some? <==> Unmasked(ks, password, old(buf[lo..hi])).Some?
    ensures decoded.None? ==> buf[..] == old(buf[..])
    ensures decoded.Some? ==>
      && decoded.value == hi - lo - SALT_LEN
      && buf[lo..lo + decoded.value] == Unmasked(ks, password, old(buf[lo..hi])).value
    ensures forall j :: 0 <= j < buf.Length && !(lo <= j < hi) ==> buf[j] == old(buf[j])
  {
    if hi - lo <= SALT_LEN {
      return None;
    }
    var salt := buf[lo..lo + SALT_LEN];
    var n := hi - lo - SALT_LEN;
    ghost var packet := buf[lo..hi];
    assert packet[..SALT_LEN] == salt;
    var index := 0;
    while index < n
      invariant 0 <= index <= n
      invariant forall j :: 0 <= j < buf.Length && !(lo <= j < lo + index) ==> buf[j] == old(buf[j])
      invariant forall i :: 0 <= i < index ==>
        buf[lo + i] == Xor(packet[SALT_LEN + i], ks(password, salt, i % KEY_LEN))
    {
      assert buf[lo + SALT_LEN + index] == packet[SALT_LEN + index];
      buf[lo + index] := Xor(buf[lo + SALT_LEN + index], ks(password, salt, index % KEY_LEN));
      index := index + 1;
    }
    assert buf[lo..lo + n] == Unmasked(ks, password, packet).value;
    return Some(n);
  }
}
