/** Gecko framing (src/hysteria2_obfs.rs): a long-header QUIC packet is cut into 2..8 pieces,
    each sent in a padded frame whose header names the message, the piece and the count. */
module GeckoWire {
  import opened Common
  import opened Salamander
  import opened Slots

  const FRAGMENT_FLAG: byte := 0x80

  /** The first byte has FRAGMENT_FLAG set: a long-header QUIC packet, or a Gecko frame. */
  predicate Flagged(b: byte) {
    b >= FRAGMENT_FLAG
  }

  const HEADER_LEN := 5
  const MIN_CHUNKS := 2
  const MAX_CHUNKS := 8
  const MAX_ON_WIRE_SIZE := 2048

  datatype Chunk = Chunk(msgId: byte, index: nat, total: nat, payload: seq<byte>)

  /** What the parser guarantees about a chunk it accepts. */
  predicate WellFormed(c: Chunk) {
    MIN_CHUNKS <= c.total <= MAX_CHUNKS && c.index < c.total
  }

  /** A frame: flag, message id, index and count in one byte, big-endian padding length,
      padding, piece.  `as u8` and `as u16` truncate. */
  function Frame(msgId: byte, index: nat, total: nat, pad: seq<byte>, piece: seq<byte>): seq<byte> {
    [FRAGMENT_FLAG, msgId, PackPosition(index, total), HighByte(|pad|), LowByte(|pad|)] + pad + piece
  }

  function PackPosition(index: nat, total: nat): byte {
    (index % 16 * 16 + total % 16) as byte
  }

  function HighByte(n: nat): byte {
    (n / 256 % 256) as byte
  }

  function LowByte(n: nat): byte {
    (n % 256) as byte
  }

  function ParseChunk(packet: seq<byte>): (r: Option<Chunk>)
    ensures r.Some? ==> WellFormed(r.value)
  {
    if |packet| < HEADER_LEN then None
    else
      var index := packet[2] as int / 16;
      var total := packet[2] as int % 16;
      if !(MIN_CHUNKS <= total <= MAX_CHUNKS) || index >= total then None
      else
        var padLen := packet[3] as int * 256 + packet[4] as int;
        if HEADER_LEN + padLen > |packet| then None
        else Some(Chunk(packet[1], index, total, packet[HEADER_LEN + padLen..]))
  }

  /** Parsing a frame gives back exactly the chunk it was made from, whatever the padding. */
  lemma FrameRoundTrip(msgId: byte, index: nat, total: nat, pad: seq<byte>, piece: seq<byte>)
    requires MIN_CHUNKS <= total <= MAX_CHUNKS && index < total
    requires |pad| < 65536
    ensures ParseChunk(Frame(msgId, index, total, pad, piece)) == Some(Chunk(msgId, index, total, piece))
  {
    hide PackPosition, HighByte, LowByte;
    Unpack(index, total);
    TwoBytes(|pad|);
    var f := Frame(msgId, index, total, pad, piece);
    assert f[HEADER_LEN + |pad|..] == piece;
  }

  /** The header: flag, message id, index and count in the two halves of a byte, padding length, most
      significant byte first; then the padding, then the piece. */
  lemma FrameLayout(msgId: byte, index: nat, total: nat, pad: seq<byte>, piece: seq<byte>)
    requires index < 16 && total < 16 && |pad| < 65536
    ensures var f := Frame(msgId, index, total, pad, piece);
            && |f| == HEADER_LEN + |pad| + |piece|
            && Flagged(f[0]) && f[1] == msgId
            && f[2] as int / 16 == index && f[2] as int % 16 == total
            && f[3] as int * 256 + f[4] as int == |pad|
            && f[HEADER_LEN..HEADER_LEN + |pad|] == pad && f[HEADER_LEN + |pad|..] == piece
  {
    hide PackPosition, HighByte, LowByte;
    Unpack(index, total);
    TwoBytes(|pad|);
  }

  lemma Unpack(index: nat, total: nat)
    requires index < 16 && total < 16
    ensures PackPosition(index, total) as int / 16 == index && PackPosition(index, total) as int % 16 == total
  {
  }

  lemma TwoBytes(n: nat)
    requires n < 65536
    ensures HighByte(n) as int * 256 + LowByte(n) as int == n
  {
  }

  /** Nothing else is accepted: up to the flag byte, which the caller has looked at, an accepted packet
      is the frame of its chunk with some padding. */
  lemma ParsesOnlyFrames(packet: seq<byte>) returns (pad: seq<byte>)
    requires ParseChunk(packet).Some?
    ensures var c := ParseChunk(packet).value;
            |pad| < 65536 && packet[1..] == Frame(c.msgId, c.index, c.total, pad, c.payload)[1..]
  {
    var c := ParseChunk(packet).value;
    var padLen := packet[3] as int * 256 + packet[4] as int;
    pad := packet[HEADER_LEN..HEADER_LEN + padLen];
    var f := Frame(c.msgId, c.index, c.total, pad, c.payload);
    assert f[1] == packet[1] && f[2] == packet[2] && f[3] == packet[3] && f[4] == packet[4];
    assert f[5..] == pad + c.payload == packet[5..];
    assert f[1..] == [f[1], f[2], f[3], f[4]] + f[5..];
    assert packet[1..] == [packet[1], packet[2], packet[3], packet[4]] + packet[5..];
  }

  /** The bytes of piece `index` when `payload` is cut into `n`: all but the last have
      |payload| / n bytes (possibly none). */
  function Piece(payload: seq<byte>, n: nat, index: nat): seq<byte>
    requires 0 < n && index < n
  {
    PieceBounds(|payload|, n, index);
    var start := PieceStart(|payload|, n, index);
    payload[start .. if index < n - 1 then PieceStart(|payload|, n, index + 1) else |payload|]
  }

  function PieceStart(len: nat, n: nat, index: nat): int
    requires 0 < n
  {
    index * (len / n)
  }

  lemma PieceBounds(len: nat, n: nat, index: nat)
    requires 0 < n && index < n
    ensures 0 <= PieceStart(len, n, index) <= PieceStart(len, n, index + 1) <= len
    ensures PieceStart(len, n, index + 1) == PieceStart(len, n, index) + len / n
  {
    ScaledBounds(len / n, n, index);
  }

  lemma ScaledBounds(size: nat, n: nat, index: nat)
    requires index < n
    ensures (index + 1) * size == index * size + size
    ensures 0 <= index * size <= (index + 1) * size <= n * size
  {
    MulNext(index, size);
    MulMono(index + 1, n, size);
  }

  function Pieces(payload: seq<byte>, n: nat): seq<seq<byte>>
    requires 0 < n
  {
    seq(n, i requires 0 <= i < n => Piece(payload, n, i))
  }

  lemma {:induction false} PiecesPrefix(payload: seq<byte>, n: nat, k: nat)
    requires 0 < n && k < n
    ensures 0 <= PieceStart(|payload|, n, k) <= |payload|
    ensures Concat(Pieces(payload, n)[..k]) == payload[..PieceStart(|payload|, n, k)]
  {
    PieceBounds(|payload|, n, k);
    if k > 0 {
      PiecesPrefix(payload, n, k - 1);
      PieceBounds(|payload|, n, k - 1);
      var parts := Pieces(payload, n);
      assert parts[..k] == parts[..k - 1] + [Piece(payload, n, k - 1)];
      ConcatAppend(parts[..k - 1], parts[k - 1]);
    }
  }

  /** Cutting loses and reorders nothing, including payloads shorter than the piece count. */
  lemma PiecesConcat(payload: seq<byte>, n: nat)
    requires 0 < n
    ensures Concat(Pieces(payload, n)) == payload
  {
    var parts := Pieces(payload, n);
    PiecesPrefix(payload, n, n - 1);
    assert parts == parts[..n - 1] + [parts[n - 1]];
    ConcatAppend(parts[..n - 1], parts[n - 1]);
  }

  /** The padding the sender draws for a piece, given the random draw `extra`. */
  function PadLen(pieceLen: nat, minSize: nat, maxSize: nat, extra: nat): nat {
    var base := SALT_LEN + HEADER_LEN + pieceLen;
    var low := Max(minSize, base);
    if low > maxSize then 0 else low - base + extra
  }

  /** With the range the sender draws `extra` from, a padded datagram stays inside the
      configured size range; one that cannot is sent unpadded.  The padding length always
      fits its 16-bit field. */
  lemma PadKeepsSizeRange(pieceLen: nat, minSize: nat, maxSize: nat, extra: nat)
    requires maxSize <= MAX_ON_WIRE_SIZE
    requires var low := Max(minSize, SALT_LEN + HEADER_LEN + pieceLen);
             low <= maxSize ==> extra <= maxSize - low
    ensures var pad := PadLen(pieceLen, minSize, maxSize, extra);
            var wire := SALT_LEN + HEADER_LEN + pad + pieceLen;
            && pad < 65536
            && ((minSize <= maxSize && SALT_LEN + HEADER_LEN + pieceLen <= maxSize) ==> minSize <= wire <= maxSize)
            && (SALT_LEN + HEADER_LEN + pieceLen > maxSize ==> pad == 0)
  {
  }
}
